/** ar_tree: the adaptive radix tree without path compression. */
module ArTrees {
  import opened Bytes
  import opened Tries
  import opened Nodes
  import opened RadixTrees
  import opened Trees

  /** Two keys lie below s. */
  ghost predicate Shared(keys: set<Str>, s: Str) {
    exists a, b {:trigger Both(keys, s, a, b)} :: Both(keys, s, a, b)
  }

  ghost predicate Both(keys: set<Str>, s: Str, a: Str, b: Str) {
    a in keys && b in keys && a != b && s <= a && s <= b
  }

  /** Inner nodes are one byte apart, starting from the empty prefix. */
  ghost predicate Stepwise(tr: Trie) {
    && (tr.root in tr.inner ==> tr.root == [])
    && forall s, b :: s in tr.inner && b in tr.inner[s] && tr.inner[s][b] in tr.inner ==> |tr.inner[s][b]| == |s| + 1
  }

  /** Every inner node has two of the keys below it. */
  ghost predicate Crowded(tr: Trie, keys: set<Str>) {
    forall s :: s in tr.inner ==> Shared(keys, s)
  }

  /** A sound tree without prefixes whose inner nodes all have two keys below them. */
  ghost predicate Valid(t: RadixTree)
    reads t, t.Repr
  {
    Sound(t) && Stepwise(t.trie) && Crowded(t.trie, t.trie.keys)
  }

  lemma SharedMore(keys: set<Str>, more: set<Str>, s: Str)
    requires keys <= more && Shared(keys, s)
    ensures Shared(more, s)
  {
    var a, b :| Both(keys, s, a, b);
    assert Both(more, s, a, b);
  }

  lemma CrowdedMore(tr: Trie, keys: set<Str>, more: set<Str>)
    requires keys <= more && Crowded(tr, keys)
    ensures Crowded(tr, more)
  {
    forall s | s in tr.inner ensures Shared(more, s) {
      SharedMore(keys, more, s);
    }
  }

  lemma SharedAbove(keys: set<Str>, s: Str, q: Str)
    requires Shared(keys, q) && s <= q
    ensures Shared(keys, s)
  {
    var a, b :| Both(keys, q, a, b);
    assert Both(keys, s, a, b);
  }

  /** The parent of a leaf has another child. */
  lemma LeafSibling(tr: Trie, length: nat, s: Str, k: Str)
    requires tr.WF(length) && Crowded(tr, tr.keys) && tr.Inhabited() && k in tr.keys && |s| < |k| && tr.Child(s, k[|s|], k)
    ensures tr.Branches(s, 2)
  {
    var a, b :| Both(tr.keys, s, a, b);
    var c := if a == k then b else a;
    KeyDescends(tr, length, s, c);
    if c[|s|] == k[|s|] {
      PrefixEqual(k, c);
    }
    TwoMembers(tr.inner[s].Keys, c[|s|], k[|s|]);
    assert |tr.inner[s].Keys| == |tr.inner[s]|;
  }

  lemma TwoMembers(s: set<Byte>, x: Byte, y: Byte)
    requires x in s && y in s && x != y
    ensures |s| >= 2
  {
    assert |s - {x}| >= 1 by { assert y in s - {x}; }
  }

  // ---- The chain built over a leaf and a new key ----

  lemma InterposeStep(tr: Trie, length: nat, p: Str, c: Str, j: nat, s: Str, b: Byte)
    requires tr.WF(length) && Stepwise(tr) && c in tr.keys && j < |c|
    requires if c == tr.root then j == 0 else |p| + 1 == j && tr.Child(p, c[|p|], c)
    requires s in tr.Interpose(p, c, j).inner && b in tr.Interpose(p, c, j).inner[s]
    requires tr.Interpose(p, c, j).inner[s][b] in tr.Interpose(p, c, j).inner
    ensures |tr.Interpose(p, c, j).inner[s][b]| == |s| + 1
  {
    var t := c[..j];
    InterposeNew(tr, length, p, c, j);
    if s != t && !(c != tr.root && s == p && b == c[|p|]) {
      assert tr.ChildOk(s, b);
    }
  }

  lemma InterposeStepwise(tr: Trie, length: nat, p: Str, c: Str, j: nat)
    requires tr.WF(length) && Stepwise(tr) && c in tr.keys && j < |c|
    requires if c == tr.root then j == 0 else |p| + 1 == j && tr.Child(p, c[|p|], c)
    ensures Stepwise(tr.Interpose(p, c, j))
  {
    var tr' := tr.Interpose(p, c, j);
    forall s, b | s in tr'.inner && b in tr'.inner[s] && tr'.inner[s][b] in tr'.inner ensures |tr'.inner[s][b]| == |s| + 1 {
      InterposeStep(tr, length, p, c, j, s, b);
    }
  }

  lemma InterposeCrowded(tr: Trie, p: Str, c: Str, j: nat, k: Str)
    requires Crowded(tr, tr.keys + {k}) && c in tr.keys && c != k && j < |c| && j <= |k| && c[..j] == k[..j]
    requires c == tr.root || (p in tr.inner && |p| < |c|)
    ensures Crowded(tr.Interpose(p, c, j), tr.keys + {k})
  {
    assert Both(tr.keys + {k}, c[..j], c, k);
  }

  lemma InterposeInhabited(tr: Trie, p: Str, c: Str, j: nat)
    requires tr.Inhabited() && j < |c| && (c == tr.root || (|p| < |c| && tr.Child(p, c[|p|], c)))
    ensures tr.Interpose(p, c, j).Inhabited()
  {
    var tr' := tr.Interpose(p, c, j);
    forall s | s in tr'.inner ensures tr'.Branches(s, 1) {
      if s != c[..j] {
        assert tr.Branches(s, 1);
        if c != tr.root && s == p { assert tr'.inner[p].Keys == tr.inner[p].Keys; }
      }
    }
  }

  // ---- Erasure ----

  /** Only nodes on the path of the erased key k may have lost their second key. */
  ghost predicate Mended(tr: Trie, k: Str) {
    forall s :: s in tr.inner ==> Shared(tr.keys, s) || s <= k
  }

  lemma UnhangMended(tr: Trie, s: Str, k: Str)
    requires Crowded(tr, tr.keys) && s in tr.inner && |s| < |k|
    ensures Mended(tr.Unhang(s, k), k)
  {
    var tr' := tr.Unhang(s, k);
    forall u | u in tr'.inner ensures Shared(tr'.keys, u) || u <= k {
      var a, b :| Both(tr.keys, u, a, b);
      if !(u <= k) { assert Both(tr'.keys, u, a, b); }
    }
  }

  lemma UnhangStepwise(tr: Trie, s: Str, k: Str)
    requires Stepwise(tr) && s in tr.inner && |s| < |k|
    ensures Stepwise(tr.Unhang(s, k))
  {
  }

  /** The nodes on the path of k end at s once k is gone from below s. */
  lemma UnhangPath(tr: Trie, length: nat, s: Str, k: Str)
    requires tr.WF(length) && |s| < |k| && s in tr.inner && s <= k && k[|s|] !in tr.inner[s]
    ensures forall u :: u in tr.inner && u <= k ==> u <= s
  {
    forall u | u in tr.inner && u <= k ensures u <= s {
      assert s == k[..|s|] && u == k[..|u|];
      assert Extends(s, u) ==> tr.Descends(s, u);
    }
  }

  /** When the last node on the path of k has two keys below it, so do all. */
  lemma CrowdedFrom(tr: Trie, k: Str, q: Str)
    requires Mended(tr, k) && Shared(tr.keys, q) && forall s :: s in tr.inner && s <= k ==> s <= q
    ensures Crowded(tr, tr.keys)
  {
    forall s | s in tr.inner ensures Shared(tr.keys, s) {
      if s <= k { SharedAbove(tr.keys, s, q); }
    }
  }

  /** Two children hold two keys. */
  lemma BranchesShared(tr: Trie, length: nat, q: Str)
    requires tr.WF(length) && tr.Inhabited() && q in tr.inner && tr.Branches(q, 2)
    ensures Shared(tr.keys, q)
  {
    var x :| x in tr.inner[q];
    assert |tr.inner[q].Keys - {x}| >= 1;
    var y :| y in tr.inner[q].Keys - {x};
    assert tr.ChildOk(q, x) && tr.ChildOk(q, y);
    var a := KeyBelow(tr, length, tr.inner[q][x]);
    var b := KeyBelow(tr, length, tr.inner[q][y]);
    assert Both(tr.keys, q, a, b);
  }

  /** An inner child off the path of k holds two keys. */
  lemma ChildShared(tr: Trie, length: nat, q: Str, x: Byte, k: Str)
    requires tr.WF(length) && q in tr.inner && x in tr.inner[q] && tr.inner[q][x] in tr.inner
    requires Mended(tr, k) && Extends(q, k) && k[|q|] != x
    ensures Shared(tr.keys, q)
  {
    assert tr.ChildOk(q, x);
    SharedAbove(tr.keys, q, tr.inner[q][x]);
  }

  lemma ContractStepwise(tr: Trie, length: nat, p: Str, s: Str, c: Str)
    requires tr.WF(length) && Stepwise(tr) && s in tr.inner && c in tr.keys
    requires s == tr.root || (|p| < |s| && tr.Child(p, s[|p|], s))
    ensures Stepwise(tr.Contract(p, s, c))
  {
    assert c !in tr.inner;
  }

  /** After contracting the last node on the path of k into a leaf, the path ends above the leaf. */
  lemma ContractMended(tr: Trie, p: Str, s: Str, c: Str, k: Str)
    requires Mended(tr, k) && s in tr.inner && Extends(s, c) && (s == tr.root || (|p| < |s| && tr.Child(p, s[|p|], s)))
    requires forall u :: u in tr.inner && u <= k ==> u <= s
    ensures Mended(tr.Contract(p, s, c), k)
    ensures forall u :: u in tr.Contract(p, s, c).inner && u <= k ==> Extends(u, c)
  {
  }

  /** The nodes above a leaf are at or above its parent. */
  lemma AboveParent(tr: Trie, length: nat, p: Str, c: Str, u: Str)
    requires tr.WF(length) && |p| < |c| && tr.Child(p, c[|p|], c) && u in tr.inner && Extends(u, c)
    ensures u <= p
  {
    assert tr.ChildOk(p, c[|p|]);
    assert p == c[..|p|] && u == c[..|u|];
    assert Extends(p, u) ==> tr.Descends(p, u);
  }

  // ---- Lookup ----

  /** Inner nodes have no prefix: a node's depth is the number of bytes that lead to it. */
  lemma NoPrefix(t: RadixTree, n: Node)
    requires t.Wired() && t.root != null && Stepwise(t.trie) && t.Live(n) && n.full in t.trie.inner
    ensures n.depth == |n.full| < t.length && n.prefixLength == 0 && n.Rep() && n.tag != Tag.Leaf
    ensures n.full != t.trie.root ==> n.parent != null && |n.parent.full| + 1 == |n.full|
  {
    hide RadixTree.Wired, Node.Rep, Trie.WF;
    t.LiveKind(n);
    t.InnerDepth(n);
    ParentChild(t, n.full);
  }

  /** find */
  method Find(t: RadixTree, k: Str) returns (r: Node)
    requires Valid(t) && |k| == t.length
    ensures if k in t.trie.keys then k in t.at && r == t.at[k] && r != t.endLeaf else r == t.endLeaf
  {
    hide RadixTree.Wired, Node.Rep, Trie.WF, Sound, Seeking, Stepwise, Crowded;
    SoundParts(t);
    if t.root == null {
      EmptyKeys(t);
      return t.endLeaf;
    }
    SeekRoot(t, k);
    var current: Node? := t.root;
    var depth := 0;
    while depth < t.length + 1
      invariant depth <= t.length && (current == null ==> k !in t.trie.keys)
      invariant current != null ==> Seeking(t, current, depth, k)
      decreases t.length + 1 - depth
    {
      if current == null {
        return t.endLeaf;
      }
      SeekKind(t, current, depth, k);
      if current.tag == Tag.Leaf {
        SeekLeaf(t, current, depth, k);
        if current.key == k {
          return current;
        }
        return t.endLeaf;
      }
      SeekByte(t, current, depth, k);
      current := current.Find(k[depth]);
      depth := depth + 1;
    }
    assert false;
  }

  lemma SeekByte(t: RadixTree, n: Node, depth: nat, k: Str)
    requires t.Wired() && Stepwise(t.trie) && Seeking(t, n, depth, k) && n.full in t.trie.inner
    ensures depth == |n.full| < |k| && n.Rep()
    ensures k[depth] in n.kids ==> Seeking(t, n.kids[k[depth]], depth + 1, k)
    ensures k[depth] !in n.kids ==> k !in t.trie.keys
  {
    hide RadixTree.Wired, Node.Rep, Trie.WF, Stepwise;
    NoPrefix(t, n);
    t.InnerDepth(n);
    SeekChild(t, n, depth, k);
  }

  // ---- Insertion ----

  /** The chain over the leaf e has reached its node named by the first j bytes, which k shares. */
  ghost predicate Chained(t: RadixTree, e: Node, node: Node, j: nat, k: Str)
    reads t, t.Repr, e, node
  {
    && Sound(t) && t.root != null && Stepwise(t.trie) && Crowded(t.trie, t.trie.keys + {k})
    && t.Live(e) && e.full in t.trie.keys && e.key == e.full && e.full != k && e.tag == Tag.Leaf
    && t.Live(node) && node.full in t.trie.inner && node.tag == Node4 && node.count == 1
    && |k| == t.length == |e.full| && j < t.length && node.full == e.full[..j] == k[..j]
    && node.kids.Keys == {e.full[j]} && e.full != t.trie.root && e.parent == node
  }

  twostate lemma SoundFork(t: RadixTree, new p: Str, new c: Str, new n: nat)
    requires old(Sound(t) && t.root != null) && n < |c|
    requires c == old(t.trie.root) || (p in old(t.trie.inner) && |p| < |c|)
    requires t.Wired() && t.root != null && t.count == old(t.count)
    requires t.trie == old(t.trie).Interpose(p, c, n) && t.trie.Inhabited() && t.BandOk(c[..n])
    requires forall u :: u in t.trie.inner && u in old(t.trie.inner) && old(t.BandOk(u)) ==> t.BandOk(u)
    ensures Sound(t)
  {
    hide RadixTree.Anchored, RadixTree.LeafOk, RadixTree.KidsOk, RadixTree.PrefixOk, RadixTree.ParentOk, Node.Rep,
      Trie.WF, RadixTree.BandOk, Trie.Inhabited, Trie.Interpose, RadixTree.Owned;
    InterposeParts(old(t.trie), p, c, n);
    BandedBut(t, c[..n]);
  }

  /** The leaf e hangs at its j-th byte, up to which k agrees with it. */
  ghost predicate Chainable(t: RadixTree, e: Node, j: nat, k: Str)
    reads t, t.Repr, e
  {
    && Sound(t) && t.root != null && Stepwise(t.trie) && Crowded(t.trie, t.trie.keys + {k})
    && t.Live(e) && e.full in t.trie.keys && e.key == e.full && e.full != k && e.tag == Tag.Leaf
    && |k| == t.length == |e.full| && j < t.length && e.full[..j] == k[..j] && t.AtDepth(e, j)
  }

  /** The trie of a further link in the chain. */
  lemma LinkTrie(tr: Trie, length: nat, p: Str, c: Str, j: nat, k: Str)
    requires tr.WF(length) && Stepwise(tr) && Crowded(tr, tr.keys + {k}) && tr.Inhabited() && c in tr.keys && c != k
    requires j < |c| && j <= |k| && c[..j] == k[..j]
    requires if c == tr.root then j == 0 else |p| + 1 == j && tr.Child(p, c[|p|], c)
    ensures var tr' := tr.Interpose(p, c, j);
      tr'.Inhabited() && Stepwise(tr') && tr'.keys == tr.keys && Crowded(tr', tr'.keys + {k})
    ensures c[..j] in tr.Interpose(p, c, j).inner && tr.Interpose(p, c, j).inner[c[..j]] == map[c[j] := c]
  {
    hide Trie.Inhabited, Stepwise, Crowded, Trie.WF;
    InterposeParts(tr, p, c, j);
    InterposeStepwise(tr, length, p, c, j);
    InterposeCrowded(tr, p, c, j, k);
    InterposeInhabited(tr, p, c, j);
  }

  lemma LinkParent(t: RadixTree, e: Node, m: Node, b: Byte)
    requires t.Wired() && t.root != null && t.Live(e) && t.Live(m) && m.full in t.trie.inner && |m.full| < |e.full|
    requires b == e.full[|m.full|] && t.trie.inner[m.full] == map[b := e.full]
    ensures e.parent == m && e.full != t.trie.root
  {
    hide RadixTree.Wired, Node.Rep, Trie.WF;
    t.LinkedAt(m.full, e.full);
  }

  /** A one-child node directly above the leaf e. */
  method Link(t: RadixTree, e: Node, k: Str, j: nat) returns (m: Node)
    requires Chainable(t, e, j, k)
    modifies t.Repr
    ensures Chained(t, e, m, j, k) && KeysKept(t) && fresh(t.Repr - old(t.Repr))
  {
    hide RadixTree.Wired, Node.Rep, Trie.WF, RadixTree.BandOk, KeysKept, Sound, Stepwise, Crowded, Trie.Inhabited, Trie.Interpose;
    SoundParts(t);
    t.WiredTrie();
    ParentChild(t, e.full);
    KeysLive(t);
    ghost var p := e.parent.full;
    LinkTrie(t.trie, t.length, p, e.full, j, k);
    m := t.ForkLeaf(e, k, j, j);
    SoundFork(t, p, e.full, j);
    KeysKeptBy(t, m);
    LinkParent(t, e, m, e.full[j]);
  }

  /** The absent key k belongs below n, and every inner node will have two keys below it with k. */
  ghost predicate Gap(t: RadixTree, n: Node, k: Str)
    reads t, t.Repr, n
  {
    Open(t, n, k) && Stepwise(t.trie) && Crowded(t.trie, t.trie.keys + {k})
  }

  lemma ChainNext(t: RadixTree, e: Node, node: Node, j: nat, k: Str)
    requires Chained(t, e, node, j, k)
    ensures e.full[j] == k[j] ==> Chainable(t, e, j + 1, k)
    ensures e.full[j] != k[j] ==> Gap(t, node, k) && node.count < MaxSize(node.tag)
  {
    hide RadixTree.Wired, Node.Rep, Trie.WF, RadixTree.BandOk, Sound, Stepwise, Crowded, Open;
    if e.full[j] == k[j] {
      assert e.full[..j + 1] == k[..j + 1];
      WholePrefix(e.full, k, j + 1);
    } else {
      OpenHere(t, node, k);
    }
  }

  /** Puts one-child nodes above the leaf e for every further byte its key shares with k, down to the
      node where they part. */
  method Chain(t: RadixTree, e: Node, k: Str, depth: nat) returns (node: Node)
    requires Chainable(t, e, depth, k)
    modifies t.Repr
    ensures Gap(t, node, k) && node.count < MaxSize(node.tag) && KeysKept(t) && fresh(t.Repr - old(t.Repr))
  {
    hide RadixTree.Wired, Node.Rep, Trie.WF, RadixTree.BandOk, Sound, SameLeaves, Gap, Chained, Chainable;
    node := Link(t, e, k, depth);
    var j := depth;
    ChainRoom(t, e, node, j, k);
    while j < t.length
      invariant j < t.length && |e.key| == |k| == t.length && e.key == e.full
      invariant Chained(t, e, node, j, k) && KeysKept(t) && fresh(t.Repr - old(t.Repr))
      decreases t.length - j
    {
      ChainNext(t, e, node, j, k);
      if e.key[j] == k[j] {
        ghost var at1 := t.at;
        ChainableRoom(t, e, j + 1, k);
        node := Link(t, e, k, j + 1);
        SameLeavesTrans(old(t.trie.keys), old(t.at), at1, t.at);
      } else {
        return node;
      }
      j := j + 1;
    }
    assert false;
  }

  lemma ChainRoom(t: RadixTree, e: Node, node: Node, j: nat, k: Str)
    requires Chained(t, e, node, j, k)
    ensures j < t.length && |e.key| == |k| == t.length && e.key == e.full
  {
    hide RadixTree.Wired, Sound, Stepwise, Crowded;
  }

  lemma ChainableRoom(t: RadixTree, e: Node, j: nat, k: Str)
    requires Chainable(t, e, j, k)
    ensures j < t.length
  {
    hide RadixTree.Wired, Sound, Stepwise, Crowded;
  }

  /** insert_leaf into the gap. */
  method FillGap(t: RadixTree, n: Node, leaf: Node, k: Str)
    requires Gap(t, n, k) && n.count < MaxSize(n.tag)
    requires leaf !in t.Repr && leaf.bytes !in t.Repr && leaf.children !in t.Repr
    requires leaf.full == leaf.key == k && leaf.tag == Tag.Leaf && leaf.parent == n
    modifies t.Repr
    ensures Valid(t) && t.Repr == old(t.Repr) + {leaf, leaf.bytes, leaf.children}
    ensures t.at == old(t.at)[k := leaf] && k !in old(t.trie.keys) && t.count == old(t.count) + 1
    ensures t.trie.keys == old(t.trie.keys) + {k}
  {
    hide RadixTree.Wired, Node.Rep, Trie.WF, RadixTree.BandOk, Sound, Open, Stepwise, Crowded;
    OpenTrie(t, n, k);
    PutLeaf(t, n, leaf, k);
    HangShape(old(t.trie), t.length, n.full, k);
  }

  lemma OpenTrie(t: RadixTree, n: Node, k: Str)
    requires Open(t, n, k)
    ensures n.full in t.trie.inner && Extends(n.full, k) && k !in t.trie.inner
  {
    hide RadixTree.BandOk, Node.Rep, RadixTree.LeafOk, RadixTree.PrefixOk, RadixTree.ParentOk, RadixTree.KidsOk;
  }

  lemma HangShape(tr: Trie, length: nat, s: Str, k: Str)
    requires Stepwise(tr) && Crowded(tr, tr.keys + {k}) && s in tr.inner && |s| < |k| && k !in tr.inner
    ensures Stepwise(tr.Hang(s, k)) && Crowded(tr.Hang(s, k), tr.Hang(s, k).keys)
  {
  }

  /** Hangs a new leaf of k below n, which is grown first if it is full. */
  method InsertInGap(t: RadixTree, n: Node, k: Str, v: Value) returns (r: Node)
    requires Gap(t, n, k)
    modifies t.Repr
    ensures Valid(t) && fresh(t.Repr - old(t.Repr)) && fresh(r) && r.value == v && Added(t, k, r)
  {
    hide RadixTree.Wired, Node.Rep, Trie.WF, RadixTree.BandOk, Sound, Open, Stepwise, Crowded, SameLeaves;
    OpenTrie(t, n, k);
    r := InsertBelow(t, n, k, v);
    HangShape(old(t.trie), t.length, n.full, k);
  }

  /** Chains down from the leaf e and hangs a new leaf of k beside it. */
  method InsertBeside(t: RadixTree, e: Node, k: Str, v: Value, depth: nat) returns (r: Node)
    requires Valid(t) && t.root != null && Arrived(t, e, depth, k) && e.tag == Tag.Leaf && e.key != k
    modifies t.Repr
    ensures Valid(t) && fresh(t.Repr - old(t.Repr)) && fresh(r) && r.value == v && Added(t, k, r)
  {
    hide RadixTree.Wired, Node.Rep, Trie.WF, Open, RadixTree.BandOk, Sound, SameLeaves, Stepwise, Crowded;
    ArrivedChainable(t, e, depth, k);
    var inner := Chain(t, e, k, depth);
    OpenKeys(t, inner, k);
    r := new Node.Leaf(k, v, inner);
    SameLeavesUpdate(t.trie.keys, old(t.at), t.at, k, r);
    FillGap(t, inner, r, k);
  }

  lemma ArrivedChainable(t: RadixTree, e: Node, depth: nat, k: Str)
    requires Valid(t) && t.root != null && Arrived(t, e, depth, k) && e.tag == Tag.Leaf && e.key != k
    ensures Chainable(t, e, depth, k)
  {
    hide RadixTree.Wired, Node.Rep, Trie.WF, RadixTree.BandOk, Sound, Stepwise, Crowded;
    SoundParts(t);
    ArrivedKind(t, e, depth, k);
    CrowdedMore(t.trie, t.trie.keys, t.trie.keys + {k});
    WholePrefix(e.full, k, depth);
  }

  /** Where the descent stands: at a live node, or past the node previous that lacks the byte of k. */
  ghost predicate Descending(t: RadixTree, previous: Node, current: Node?, depth: nat, k: Str)
    reads t, t.Repr, previous, if current == null then {} else {current}
  {
    if current == null then Gap(t, previous, k) && depth == |previous.full| + 1
    else Valid(t) && t.root != null && Arrived(t, current, depth, k)
  }

  lemma ArriveByte(t: RadixTree, n: Node, depth: nat, k: Str)
    requires Valid(t) && t.root != null && Arrived(t, n, depth, k) && n.full in t.trie.inner
    ensures depth == |n.full| < |k| && n.Rep()
    ensures Descending(t, n, if k[depth] in n.kids then n.kids[k[depth]] else null, depth + 1, k)
  {
    hide RadixTree.Wired, Node.Rep, Trie.WF, RadixTree.BandOk, Sound, Stepwise, Crowded, Open;
    SoundParts(t);
    NoPrefix(t, n);
    t.InnerDepth(n);
    assert n.full[..depth] == n.full;
    if k[depth] in n.kids {
      ArriveChild(t, n, depth, k);
    } else {
      OpenHere(t, n, k);
      CrowdedMore(t.trie, t.trie.keys, t.trie.keys + {k});
    }
  }

  lemma NoInner(tr: Trie)
    requires tr.inner == map[]
    ensures Stepwise(tr) && Crowded(tr, tr.keys)
  {
  }

  /** insert_unique: the first value of a key wins. */
  method Insert(t: RadixTree, k: Str, v: Value) returns (r: Node, inserted: bool)
    requires Valid(t) && |k| == t.length
    modifies t.Repr
    ensures Valid(t) && fresh(t.Repr - old(t.Repr))
    ensures inserted <==> k !in old(t.trie.keys)
    ensures inserted ==> fresh(r) && r.value == v && Added(t, k, r)
    ensures !inserted ==> k in t.at && r == t.at[k] && KeysKept(t)
    ensures Contents(t) == if inserted then old(Contents(t))[k := v] else old(Contents(t))
  {
    hide RadixTree.Wired, Node.Rep, Trie.WF, Open, RadixTree.BandOk, Sound, Stepwise, Crowded, SameLeaves, Arrived, Contents,
      RadixTree.Owned, RadixTree.Banded, Trie.Inhabited;
    SoundParts(t);
    if t.root == null {
      r := InsertFirst(t, k, v);
      NoInner(t.trie);
      AddedContents(t, k, r);
      return r, true;
    }
    var current: Node? := t.root;
    var previous: Node := t.dummy;
    var depth := 0;
    ArriveRoot(t, k);
    KeysLive(t);
    NothingMoved(t);
    while depth < t.length + 1
      invariant depth <= t.length && t.root != null && Descending(t, previous, current, depth, k)
      invariant KeysKept(t) && fresh(t.Repr - old(t.Repr))
      decreases t.length + 1 - depth
    {
      ghost var at1 := t.at;
      if current != null {
        SoundParts(t);
        ArrivedKind(t, current, depth, k);
        if current.tag == Tag.Leaf {
          if current.key == k {
            KeptContents(t);
            return current, false;
          }
          r := InsertBeside(t, current, k, v, depth);
          SameLeavesTrans(old(t.trie.keys), old(t.at), at1, t.at);
          AddedContents(t, k, r);
          return r, true;
        } else {
          ArriveByte(t, current, depth, k);
          previous := current;
          current := current.Find(k[depth]);
        }
      } else {
        r := InsertInGap(t, previous, k, v);
        SameLeavesTrans(old(t.trie.keys), old(t.at), at1, t.at);
        AddedContents(t, k, r);
        return r, true;
      }
      depth := depth + 1;
    }
    assert false;
  }

  /** get_insert_unique_pos */
  method GetInsertUniquePos(t: RadixTree, k: Str) returns (n: Node)
    requires Valid(t) && |k| == t.length
    modifies t.Repr
    ensures InsertPos(t, n, k) && KeysKept(t) && fresh(t.Repr - old(t.Repr)) && Stepwise(t.trie)
    ensures if IsInner(n.tag) then Crowded(t.trie, t.trie.keys + {k}) else Crowded(t.trie, t.trie.keys)
  {
    hide RadixTree.Wired, Node.Rep, Trie.WF, Open, RadixTree.BandOk, Sound, Stepwise, Crowded, SameLeaves, Arrived,
      RadixTree.Owned, RadixTree.Banded, Trie.Inhabited;
    SoundParts(t);
    t.DummyKind();
    KeysLive(t);
    NothingMoved(t);
    if t.root == null {
      return t.dummy;
    }
    var current: Node? := t.root;
    var previous: Node := t.dummy;
    var depth := 0;
    ArriveRoot(t, k);
    while depth < t.length + 1
      invariant depth <= t.length && t.root != null && Descending(t, previous, current, depth, k)
      invariant KeysKept(t) && fresh(t.Repr - old(t.Repr))
      decreases t.length + 1 - depth
    {
      ghost var at1 := t.at;
      if current != null {
        SoundParts(t);
        ArrivedKind(t, current, depth, k);
        if current.tag == Tag.Leaf {
          if current.key == k {
            return current;
          }
          ArrivedChainable(t, current, depth, k);
          n := Chain(t, current, k, depth);
          OpenParts(t, n, k);
          SameLeavesTrans(old(t.trie.keys), old(t.at), at1, t.at);
          return n;
        } else {
          ArriveByte(t, current, depth, k);
          previous := current;
          current := current.Find(k[depth]);
        }
      } else {
        n := MakeRoom(t, previous, k);
        OpenParts(t, n, k);
        SameLeavesTrans(old(t.trie.keys), old(t.at), at1, t.at);
        return n;
      }
      depth := depth + 1;
    }
    assert false;
  }

  lemma InsertPosTrie(t: RadixTree, n: Node, k: Str)
    requires InsertPos(t, n, k) && k !in t.trie.keys
    ensures t.root != null ==> IsInner(n.tag) && n.full in t.trie.inner && Extends(n.full, k) && k !in t.trie.inner
  {
    hide RadixTree.Wired, RadixTree.BandOk, Open, Sound;
    if t.root != null { OpenTrie(t, n, k); }
  }

  /** emplace_unique: the leaf is built first and dropped if its key is already stored. */
  method Emplace(t: RadixTree, k: Str, v: Value) returns (r: Node, inserted: bool)
    requires Valid(t) && |k| == t.length
    modifies t.Repr
    ensures Valid(t) && fresh(t.Repr - old(t.Repr))
    ensures inserted <==> k !in old(t.trie.keys)
    ensures inserted ==> fresh(r) && r.value == v && Added(t, k, r)
    ensures !inserted ==> k in t.at && r == t.at[k] && KeysKept(t)
    ensures Contents(t) == if inserted then old(Contents(t))[k := v] else old(Contents(t))
  {
    hide RadixTree.Wired, Node.Rep, Trie.WF, Open, RadixTree.BandOk, Sound, Stepwise, Crowded, SameLeaves, InsertPos, Contents;
    var leaf := new Node.Leaf(k, v, null);
    var node := GetInsertUniquePos(t, k);
    InsertPosTag(t, node, k);
    if node.tag != Tag.Leaf {
      ghost var at1, tr1, first := t.at, t.trie, t.root == null;
      InsertPosTrie(t, node, k);
      InsertLeaf(t, node, leaf, k);
      if first { NoInner(t.trie); } else { HangShape(tr1, t.length, node.full, k); }
      SameLeavesTrans(old(t.trie.keys), old(t.at), at1, t.at);
      AddedContents(t, k, leaf);
      return leaf, true;
    }
    KeptContents(t);
    return node, false;
  }

  /** A leaf is left of what was below the path of the erased key k, and the path ends above it. */
  ghost predicate Climbs(t: RadixTree, leaf: Node, k: Str)
    reads t, t.Repr, leaf
  {
    && Sound(t) && t.root != null && Stepwise(t.trie) && Mended(t.trie, k) && |k| == t.length
    && t.Live(leaf) && leaf.full in t.trie.keys && leaf.parent != null
    && (forall u :: u in t.trie.inner && u <= k ==> Extends(u, leaf.full))
    && (leaf.full == t.trie.root <==> leaf.parent == t.dummy)
    && (leaf.parent != t.dummy ==> t.Live(leaf.parent) && leaf.parent.full in t.trie.inner && Extends(leaf.parent.full, k))
  }

  /** A one-way node is a Node4, and a drained one. */
  lemma OneWayDrained(t: RadixTree, n: Node, k: Str)
    requires Sound(t) && t.root != null && t.Live(n) && n.full in t.trie.inner && n.count <= 1
    requires Extends(n.full, k) && |k| == t.length
    ensures Drained(t, n, k) && n.tag == Node4 && n.count == 1
  {
    hide RadixTree.Wired, Trie.WF, Node.Sorted, Node.Indexed, Node.Direct;
    SoundParts(t);
    t.LiveKind(n);
    assert t.BandOk(n.full) && t.trie.Branches(n.full, 1);
    assert |n.kids| == |n.kids.Keys| && |t.trie.inner[n.full]| == |t.trie.inner[n.full].Keys|;
  }

  /** A drained Node4 is sound even when it is one-way. */
  lemma DrainedSound(t: RadixTree, n: Node, k: Str)
    requires Drained(t, n, k) && n.tag == Node4
    ensures Sound(t)
  {
    hide RadixTree.Wired, Trie.WF, Node.Rep;
    t.WiredOwned();
    assert t.BandOk(n.full);
  }

  /** The only child of a one-way node. */
  lemma OnlyLeafBelow(t: RadixTree, n: Node, leaf: Node)
    requires t.Wired() && t.root != null && t.Live(n) && n.full in t.trie.inner && n.count == 1
    requires t.Live(leaf) && leaf.full != t.trie.root && leaf.parent == n
    ensures |n.full| < |leaf.full| && t.trie.inner[n.full] == map[leaf.full[|n.full|] := leaf.full]
    ensures Extends(n.full, leaf.full)
  {
    hide RadixTree.Wired, Node.Rep, Trie.WF;
    var o := t.OnlyChild(n);
    t.LinkedAt(n.full, leaf.full);
  }

  lemma FoldTrie(tr: Trie, length: nat, p: Str, s: Str, c: Str, k: Str)
    requires tr.WF(length) && Stepwise(tr) && Mended(tr, k) && s in tr.inner && c in tr.keys && Extends(s, c)
    requires s == tr.root || (|p| < |s| && tr.Child(p, s[|p|], s))
    requires forall u :: u in tr.inner && u <= k ==> u <= s
    ensures tr.Contract(p, s, c).keys == tr.keys && Stepwise(tr.Contract(p, s, c)) && Mended(tr.Contract(p, s, c), k)
    ensures forall u :: u in tr.Contract(p, s, c).inner && u <= k ==> Extends(u, c)
  {
    hide Trie.WF;
    ContractStepwise(tr, length, p, s, c);
    ContractMended(tr, p, s, c, k);
  }

  lemma ParentAfterFold(t: RadixTree, tr: Trie, p: Str, s: Str, leaf: Node)
    requires t.Wired() && t.root != null && t.Live(leaf) && s in tr.inner && Extends(s, leaf.full)
    requires s == tr.root || (|p| < |s| && tr.Child(p, s[|p|], s) && Extends(p, s))
    requires t.trie == tr.Contract(p, s, leaf.full)
    ensures leaf.full == t.trie.root <==> leaf.parent == t.dummy
    ensures s == tr.root ==> leaf.full == t.trie.root
    ensures s != tr.root ==> leaf.full != t.trie.root && p in t.at && leaf.parent == t.at[p]
  {
    hide RadixTree.Wired, Node.Rep, Trie.WF;
    t.DummyKind();
    RootParent(t, leaf);
    if s != tr.root {
      t.WiredTrie();
      t.LinkedAt(p, leaf.full);
    }
  }

  lemma RootParent(t: RadixTree, n: Node)
    requires t.Wired() && t.root != null && t.Live(n)
    ensures n.parent != null && (n.full == t.trie.root <==> n.parent == t.dummy)
  {
    hide Node.Rep, Trie.WF, RadixTree.Anchored, RadixTree.LeafOk, RadixTree.KidsOk, RadixTree.PrefixOk;
    assert t.ParentOk(n.full);
  }

  lemma SoundDrops(t: RadixTree, n: Node)
    requires Sound(t) && t.root != null && Stepwise(t.trie) && t.Live(n) && n.full in t.trie.inner && n.parent != null
    ensures n.full != t.trie.root ==> t.Live(n.parent) && n.parent.full in t.trie.inner && Extends(n.parent.full, n.full)
    ensures n.full != t.trie.root ==> |n.parent.full| < |n.full| && t.trie.Child(n.parent.full, n.full[|n.parent.full|], n.full)
    ensures n.full == t.trie.root <==> n.parent == t.dummy
    ensures t.trie.WF(t.length) && t.Wired()
  {
    hide RadixTree.Wired, Node.Rep, Trie.WF, Sound, Stepwise;
    SoundParts(t);
    t.WiredTrie();
    RootParent(t, n);
    ParentChild(t, n.full);
    if n.full != t.trie.root {
      t.ParentExtends(n.full);
      t.WiredAt(n.full);
      t.ParentIn(n.full);
    }
  }

  /** Puts the leaf in the place of the one-way node n above it. */
  method FoldUp(t: RadixTree, n: Node, leaf: Node, k: Str)
    requires Sound(t) && t.root != null && Stepwise(t.trie) && Mended(t.trie, k) && |k| == t.length
    requires forall u :: u in t.trie.inner && u <= k ==> u <= n.full
    requires t.Live(n) && n.full in t.trie.inner && n.count <= 1 && Extends(n.full, k)
    requires t.Live(leaf) && leaf.full in t.trie.keys && leaf.full != t.trie.root && leaf.parent == n
    modifies t.Repr
    ensures Climbs(t, leaf, k) && leaf.parent == old(n.parent) && KeysKept(t) && fresh(t.Repr - old(t.Repr))
  {
    hide RadixTree.Wired, Node.Rep, Trie.WF, RadixTree.BandOk, Sound, Stepwise, Mended, SameLeaves, Drained;
    SoundParts(t);
    OneWayDrained(t, n, k);
    DrainedParts(t, n, k);
    OnlyLeafBelow(t, n, leaf);
    RootParent(t, n);
    SoundDrops(t, n);
    ghost var p := n.parent.full;
    FoldTrie(t.trie, t.length, p, n.full, leaf.full, k);
    var c := t.Fold(n, k);
    assert c == leaf;
    SameLeavesRemove(t.trie.keys, old(t.at), old(t.at), n.full);
    Folded(t, n.full, p, c.full, k);
    ParentAfterFold(t, old(t.trie), p, n.full, leaf);
  }

  lemma LoneRoot(tr: Trie, length: nat, k: Str)
    requires tr.WF(length) && tr.root in tr.keys
    ensures tr.inner == map[]
  {
    assert forall s :: s in tr.inner ==> tr.root <= s && |s| < |tr.root|;
  }

  lemma CrowdedAt(tr: Trie, length: nat, k: Str, q: Str)
    requires tr.WF(length) && tr.Inhabited() && Mended(tr, k) && q in tr.inner && tr.Branches(q, 2)
    requires forall s :: s in tr.inner && s <= k ==> s <= q
    ensures Crowded(tr, tr.keys)
  {
    BranchesShared(tr, length, q);
    CrowdedFrom(tr, k, q);
  }

  lemma ManyChildren(t: RadixTree, n: Node)
    requires t.Wired() && t.root != null && t.Live(n) && n.full in t.trie.inner && n.count >= 2
    ensures t.trie.Branches(n.full, 2)
  {
    hide RadixTree.Wired, Trie.WF, Node.Sorted, Node.Indexed, Node.Direct;
    t.LiveKind(n);
    assert |n.kids| == |n.kids.Keys| && |t.trie.inner[n.full]| == |t.trie.inner[n.full].Keys|;
  }

  /** The climb is over at the root, and below a node with another child. */
  lemma Settled(t: RadixTree, leaf: Node, k: Str)
    requires Climbs(t, leaf, k) && (leaf.parent == t.dummy || leaf.parent.count >= 2)
    ensures Valid(t)
  {
    hide RadixTree.Wired, Node.Rep, Trie.WF, Sound, Stepwise, Mended;
    SoundParts(t);
    t.WiredTrie();
    if leaf.parent == t.dummy {
      LoneRoot(t.trie, t.length, k);
    } else {
      ManyChildren(t, leaf.parent);
      RootParent(t, leaf);
      ParentChild(t, leaf.full);
      var p := leaf.parent.full;
      forall s | s in t.trie.inner && s <= k ensures s <= p {
        AboveParent(t.trie, t.length, p, leaf.full, s);
      }
      CrowdedAt(t.trie, t.length, k, p);
    }
  }

  lemma ClimbParts(t: RadixTree, leaf: Node, k: Str)
    requires Climbs(t, leaf, k)
    ensures leaf.parent != null && (leaf.parent.tag == Dummy <==> leaf.parent == t.dummy)
    ensures leaf.parent != t.dummy ==> t.Live(leaf.parent) && leaf.parent.parent != null
    ensures leaf.parent != t.dummy ==>
      && (leaf.parent.full == t.trie.root <==> leaf.parent.parent == t.dummy) 
      && (leaf.parent.parent == t.dummy ==> |leaf.parent.full| == 0)
      && (leaf.parent.parent != t.dummy ==> |leaf.parent.parent.full| + 1 == |leaf.parent.full|)
    ensures leaf.parent != t.dummy ==> Climbing(t, leaf, k)
  {
    hide RadixTree.Wired, Node.Rep, Trie.WF, Sound, Mended, Stepwise;
    SoundParts(t);
    t.DummyKind();
    if leaf.parent != t.dummy {
      RootParent(t, leaf.parent);
      NoPrefix(t, leaf.parent);
      t.WiredTrie();
      RootName(t.trie, leaf.parent.full);
      ParentChild(t, leaf.full);
      forall u | u in t.trie.inner && u <= k ensures u <= leaf.parent.full {
        AboveParent(t.trie, t.length, leaf.parent.full, leaf.full, u);
      }
    }
  }

  ghost predicate Climbing(t: RadixTree, leaf: Node, k: Str)
    reads t, leaf
  {
    leaf.parent != null && leaf.parent.full in t.trie.inner && forall u :: u in t.trie.inner && u <= k ==> u <= leaf.parent.full
  }

  lemma RootName(tr: Trie, s: Str)
    requires Stepwise(tr) && s in tr.inner
    ensures s == tr.root ==> s == []
  {
  }

  /** The byte of the erased key at the depth of the grandparent leads to the parent. */
  lemma GrandparentSlot(t: RadixTree, leaf: Node, k: Str, slot: int)
    requires Climbs(t, leaf, k) && leaf.parent != t.dummy && leaf.parent.parent != null && leaf.parent.parent != t.dummy
    requires slot == |leaf.parent.full| - 1
    ensures 0 <= slot < |k| && t.Live(leaf.parent.parent) && leaf.parent.parent.depth == slot
    ensures k[slot] in leaf.parent.parent.kids && leaf.parent.parent.kids[k[slot]] == leaf.parent
  {
    hide RadixTree.Wired, Node.Rep, Trie.WF, Sound, Mended, Stepwise;
    SoundParts(t);
    ClimbParts(t, leaf, k);
    RootParent(t, leaf.parent);
    SoundDrops(t, leaf.parent);
    NoPrefix(t, leaf.parent.parent);
    t.LiveChild(leaf.parent.parent, k[slot]);
  }

  /** One turn: the leaf takes the place of its one-way parent. */
  method ClimbOne(t: RadixTree, leaf: Node, k: Str)
    requires Climbs(t, leaf, k) && leaf.parent != t.dummy && leaf.parent.count <= 1
    modifies t.Repr
    ensures Climbs(t, leaf, k) && old(leaf.parent) != null && leaf.parent == old(leaf.parent.parent)
    ensures KeysKept(t) && fresh(t.Repr - old(t.Repr))
  {
    hide RadixTree.Wired, Node.Rep, Trie.WF, Sound, Mended, Stepwise, SameLeaves;
    ClimbParts(t, leaf, k);
    FoldUp(t, leaf.parent, leaf, k);
  }

  twostate lemma Unmoved(t: RadixTree, new leaf: Node, new k: Str)
    requires Climbs(t, leaf, k) && t.trie == old(t.trie) && t.count == old(t.count) && t.at == old(t.at)
    ensures KeysKept(t)
  {
    hide RadixTree.Wired, Node.Rep, Trie.WF, Sound, Mended, Stepwise;
    SoundParts(t);
    KeysLive(t);
  }

  /** The inner loop of shrink_after_erase: while the node above the leaf is one-way, the leaf replaces it. */
  method CollapseAbove(t: RadixTree, leaf: Node, k: Str, depth: int)
    requires Climbs(t, leaf, k) && depth == if leaf.parent == t.dummy then 0 else |leaf.parent.full| + 1
    modifies t.Repr
    ensures Valid(t) && KeysKept(t) && fresh(t.Repr - old(t.Repr))
  {
    hide RadixTree.Wired, Node.Rep, Trie.WF, Sound, Mended, Stepwise, SameLeaves, Climbs, Crowded, Valid, Climbing;
    ClimbParts(t, leaf, k);
    Unmoved(t, leaf, k);
    var j := 1;
    while (leaf.parent.tag == Dummy || leaf.parent.count <= 1) && depth - j >= -1
      invariant Climbs(t, leaf, k) && KeysKept(t) && fresh(t.Repr - old(t.Repr)) && leaf.parent != null
      invariant depth - j == if leaf.parent == t.dummy then -1 else |leaf.parent.full|
      decreases depth - j + 2
    {
      var parent := leaf.parent;
      ClimbParts(t, leaf, k);
      if parent.tag == Dummy {
        Settled(t, leaf, k);
        return;
      }
      ghost var at1 := t.at;
      var grandparent := parent.parent;
      if grandparent != t.dummy {
        GrandparentSlot(t, leaf, k, depth - j - 1);
        assert grandparent.kids[k[depth - j - 1]] == parent;
      }
      ClimbOne(t, leaf, k);
      SameLeavesTrans(old(t.trie.keys), old(t.at), at1, t.at);
      j := j + 1;
    }
    ClimbParts(t, leaf, k);
    Settled(t, leaf, k);
  }

  /** shrink_after_erase on a node of a fitting size, or a one-way node above an inner node: nothing to do. */
  lemma NothingToFix(t: RadixTree, n: Node, k: Str)
    requires Drained(t, n, k) && Stepwise(t.trie) && Mended(t.trie, k) && k[|n.full|] !in t.trie.inner[n.full]
    requires forall u :: u in t.trie.inner && u <= k ==> u <= n.full
    requires n.count >= 2 || (n.tag == Node4 && exists b :: b in n.kids && n.kids[b].tag != Tag.Leaf)
    requires n.tag == Node4 || MinSize(n.tag) <= n.count
    ensures Valid(t)
  {
    hide RadixTree.Wired, Node.Rep, Trie.WF, Mended, Stepwise, Crowded;
    DrainedParts(t, n, k);
    t.WiredTrie();
    if n.tag == Node4 { DrainedSound(t, n, k); } else { DrainedFits(t, n, k); }
    if n.count >= 2 {
      ManyChildren(t, n);
      CrowdedAt(t.trie, t.length, k, n.full);
    } else {
      var b :| b in n.kids && n.kids[b].tag != Tag.Leaf;
      t.LiveKind(n);
      t.LiveChild(n, b);
      t.LiveKind(n.kids[b]);
      ChildShared(t.trie, t.length, n.full, b, k);
      CrowdedFrom(t.trie, k, n.full);
    }
  }

  lemma LoneChild(t: RadixTree, n: Node, k: Str)
    requires Drained(t, n, k) && Stepwise(t.trie) && n.tag == Node4 && n.count < 2
    ensures n.children.Length > 0 && n.bytes.Length > 0 && n.bytes[0] in n.kids && n.children[0] == n.kids[n.bytes[0]]
    ensures n.kids[n.bytes[0]].parent == n && t.Live(n.kids[n.bytes[0]]) && n.kids[n.bytes[0]].full != t.trie.root
    ensures n.kids[n.bytes[0]].tag == Tag.Leaf ==> n.kids[n.bytes[0]].full in t.trie.keys
    ensures n.parent != null && n.depth == (if n.parent == t.dummy then 0 else |n.parent.full| + 1) && Sound(t)
  {
    hide RadixTree.Wired, Node.Rep, Trie.WF, Stepwise, Sound;
    DrainedParts(t, n, k);
    DrainedSound(t, n, k);
    var o := t.OnlyChild(n);
    RadixTree.OnlyByte(n, o.full[|n.full|]);
    t.LinkedAt(n.full, o.full);
    t.LiveKind(o);
    NoPrefix(t, n);
    RootName(t.trie, n.full);
    RootParent(t, n);
  }

  /** fix_after_erase: a node too small for its layout shrinks; a leaf left alone climbs. */
  method FixAfterErase(t: RadixTree, n: Node, k: Str)
    requires Drained(t, n, k) && Stepwise(t.trie) && Mended(t.trie, k) && k[|n.full|] !in t.trie.inner[n.full]
    requires forall u :: u in t.trie.inner && u <= k ==> u <= n.full
    modifies t.Repr
    ensures Valid(t) && KeysKept(t) && fresh(t.Repr - old(t.Repr))
  {
    hide RadixTree.Wired, Node.Rep, Trie.WF, Sound, Mended, Stepwise, SameLeaves, Crowded, Drained, Climbs, Valid;
    DrainedParts(t, n, k);
    var depth := n.depth;
    if n.count < MinSize(n.tag) {
      if n.tag == Node4 {
        LoneChild(t, n, k);
        var child: Node := n.children[0];
        if child.tag == Tag.Leaf {
          FoldUp(t, n, child, k);
          ghost var at1 := t.at;
          CollapseAbove(t, child, k, depth);
          SameLeavesTrans(t.trie.keys, old(t.at), at1, t.at);
        } else {
          NothingToFix(t, n, k);
        }
      } else {
        var m := t.Resize(n, k, false);
        SameLeavesUpdate(t.trie.keys, old(t.at), old(t.at), n.full, m);
        Shrunk(t, n.full, m, k);
        DrainedParts(t, m, k);
        NothingToFix(t, m, k);
      }
    } else {
      NothingToFix(t, n, k);
    }
  }

  /** Erases the leaf of k from the inner node n and repairs the path to it. */
  method EraseBelow(t: RadixTree, n: Node, k: Str)
    requires Valid(t) && t.root != null && t.Live(n) && n.full in t.trie.inner && k in t.trie.keys && k in t.at
      && t.at[k].parent == n
    modifies t.Repr
    ensures Valid(t) && Removed(t, k) && fresh(t.Repr - old(t.Repr))
  {
    hide RadixTree.Wired, Node.Rep, Trie.WF, Drained, RadixTree.BandOk, SameLeaves, Sound, Stepwise, Crowded, Mended;
    UnhangParts(t, n, k);
    SoundParts(t);
    t.WiredTrie();
    LeafChild(t, n, k);
    LeafSibling(t.trie, t.length, n.full, k);
    SameLeavesRemove(t.trie.keys, t.at, t.at, k);
    UnhangMended(t.trie, n.full, k);
    UnhangStepwise(t.trie, n.full, k);
    t.UnhangLeaf(n, k);
    Drains(t, n.full, k);
    t.WiredTrie();
    UnhangPath(t.trie, t.length, n.full, k);
    ghost var at1 := t.at;
    FixAfterErase(t, n, k);
    SameLeavesTrans(t.trie.keys, old(t.at), at1, t.at);
  }

  lemma LeafChild(t: RadixTree, n: Node, k: Str)
    requires t.Wired() && t.root != null && t.Live(n) && n.full in t.trie.inner && k in t.trie.keys && k in t.at
      && t.at[k].parent == n
    ensures |n.full| < |k| && t.trie.Child(n.full, k[|n.full|], k)
  {
    hide RadixTree.Wired, Node.Rep, Trie.WF;
    t.UnhangReady(n.full, k);
  }

  /** The descent of erase_unique: the inner node above the leaf of k, or null if k is not stored. */
  method AboveLeaf(t: RadixTree, k: Str) returns (n: Node?)
    requires Valid(t) && |k| == t.length && t.root != null && t.root.tag != Tag.Leaf
    ensures n == null ==> k !in t.trie.keys
    ensures n != null ==>
      k in t.trie.keys && k in t.at && t.Live(n) && n.full in t.trie.inner && t.at[k].parent == n
  {
    hide RadixTree.Wired, Node.Rep, Trie.WF, RadixTree.BandOk, Sound, Seeking, Stepwise, Crowded;
    SoundParts(t);
    t.RootLive();
    t.LiveKind(t.root);
    var current: Node := t.root;
    SeekRoot(t, k);
    var depth := 0;
    while depth < t.length
      invariant depth < t.length && Seeking(t, current, depth, k) && t.Live(current) && current.full in t.trie.inner
      decreases t.length - depth
    {
      SeekByte(t, current, depth, k);
      var child := current.Find(k[depth]);
      if child == null {
        return null;
      }
      SeekKind(t, child, depth + 1, k);
      ChildParent(t, current, k[depth]);
      if child.tag == Tag.Leaf {
        SeekLeaf(t, child, depth + 1, k);
        if child.key == k {
          return current;
        } else {
          return null;
        }
      } else {
        NoPrefix(t, child);
        SeekByte(t, child, depth + 1, k);
        current := child;
      }
      depth := depth + 1;
    }
    assert false;
  }

  /** erase_unique */
  method EraseKey(t: RadixTree, k: Str) returns (erased: nat)
    requires Valid(t) && |k| == t.length
    modifies t.Repr
    ensures Valid(t) && fresh(t.Repr - old(t.Repr))
    ensures if k in old(t.trie.keys) then erased == 1 && Removed(t, k) else erased == 0 && KeysKept(t)
    ensures Contents(t) == old(Contents(t)) - {k}
  {
    hide RadixTree.Wired, Node.Rep, Trie.WF, RadixTree.BandOk, SameLeaves, Sound, Stepwise, Crowded, Contents;
    SoundParts(t);
    KeysLive(t);
    NothingMoved(t);
    UnstoredContents(t, k);
    if t.root == null {
      EmptyKeys(t);
      return 0;
    }
    if t.root.tag == Tag.Leaf {
      t.OnlyLeaf();
      t.RootLive();
      t.LiveKind(t.root);
      if t.root.key == k {
        EraseRoot(t);
        NoInner(t.trie);
        RemovedContents(t, k);
        return 1;
      }
      return 0;
    }
    var n := AboveLeaf(t, k);
    if n == null {
      return 0;
    }
    EraseBelow(t, n, k);
    RemovedContents(t, k);
    return 1;
  }

  /** erase(iterator): erases the leaf and returns its successor, which stays where it is. */
  method EraseAt(t: RadixTree, leaf: Node) returns (r: Node)
    requires Valid(t) && t.Position(leaf) && leaf != t.endLeaf
    modifies t.Repr
    ensures Valid(t) && fresh(t.Repr - old(t.Repr)) && Removed(t, leaf.key) && t.Position(r)
    ensures Contents(t) == old(Contents(t)) - {leaf.key}
    ensures if r == t.endLeaf then forall j :: j in t.trie.keys ==> !Less(leaf.key, j)
            else r.full in t.trie.keys && IsNext(old(t.trie.keys), leaf.key, r.full)
  {
    hide RadixTree.Wired, Node.Rep, Trie.WF, RadixTree.BandOk, Sound, Stepwise, Crowded, IsNext, SameLeaves, Contents;
    SoundParts(t);
    r := t.Increment(leaf);
    AboveIsInner(t, leaf);
    if r != t.endLeaf {
      NextKey(t, leaf.key, r);
    }
    if leaf == t.root {
      EraseRoot(t);
      NoInner(t.trie);
    } else {
      EraseBelow(t, leaf.parent, leaf.key);
    }
    RemovedContents(t, leaf.key);
    RemovedParts(t, leaf.key);
    if r != t.endLeaf {
      StillThere(t, r.full, leaf.key);
    }
  }

  // ---- Bounds ----

  /** Where lower_bound and upper_bound end: at a position, or at the successor call on a null previous_node. */
  datatype Bound = At(node: Node) | NullPointer

  /** r is the least of the keys that are not below k. */
  ghost predicate IsLower(keys: set<Str>, k: Str, r: Str) {
    r in keys && !Less(r, k) && forall j :: j in keys && !Less(j, k) ==> j == r || Less(r, j)
  }

  lemma EmptyBranch(tr: Trie, length: nat, s: Str, k: Str)
    requires tr.WF(length) && s in tr.inner && Extends(s, k) && k[|s|] !in tr.inner[s]
    ensures NoneAboveOnBranch(tr, s, k) && k !in tr.keys
  {
    forall j | j in tr.keys && Extends(s, j) && j[|s|] == k[|s|] ensures false {
      KeyDescends(tr, length, s, j);
    }
  }

  lemma OnlyOnBranch(tr: Trie, length: nat, s: Str, k: Str, e: Str, j: Str)
    requires tr.WF(length) && s in tr.inner && Extends(s, k) && e in tr.keys && tr.Child(s, k[|s|], e)
    requires j in tr.keys && Extends(s, j) && j[|s|] == k[|s|]
    ensures j == e
  {
    KeyDescends(tr, length, s, j);
    PrefixEqual(e, j);
  }

  /** When the branch of k ends in the leaf e, e is k, the next key above k, or no help above k. */
  lemma LeafBranch(tr: Trie, length: nat, s: Str, k: Str, e: Str)
    requires tr.WF(length) && s in tr.inner && Extends(s, k) && |k| == length && e in tr.keys && tr.Child(s, k[|s|], e)
    ensures k in tr.keys ==> k == e
    ensures !Less(k, e) ==> NoneAboveOnBranch(tr, s, k)
    ensures Less(k, e) ==> IsNext(tr.keys, k, e)
  {
    hide Less;
    if k in tr.keys { OnlyOnBranch(tr, length, s, k, e, k); }
    forall j | j in tr.keys && Extends(s, j) && j[|s|] == k[|s|] ensures j == e {
      OnlyOnBranch(tr, length, s, k, e, j);
    }
    if Less(k, e) {
      assert tr.ChildOk(s, k[|s|]);
      forall j | j in tr.keys && Less(k, j) && j != e ensures Less(e, j) {
        BeyondBranch(s, k, e, j);
      }
    }
  }

  lemma BeyondBranch(s: Str, k: Str, e: Str, j: Str)
    requires Extends(s, k) && Extends(s, e) && |k| == |e| == |j| && k[|s|] == e[|s|]
    requires Extends(s, j) ==> j[|s|] != k[|s|]
    requires Less(k, j)
    ensures Less(e, j)
  {
    hide Less;
    if Extends(s, j) {
      LessAt(s, k, j);
      LessAt(s, e, j);
    } else {
      LessOutside(s, k, j, e);
    }
  }

  /** Above an absent key, the least key not below it is the least key above it. */
  lemma LowerIsNext(keys: set<Str>, length: nat, k: Str, r: Str)
    requires k !in keys && |k| == length && forall j :: j in keys ==> |j| == length
    ensures IsNext(keys, k, r) ==> IsLower(keys, k, r)
    ensures (forall j :: j in keys ==> !Less(k, j)) ==> forall j :: j in keys ==> Less(j, k)
  {
    hide Less;
    forall j | j in keys ensures Less(j, k) != Less(k, j) {
      LessTotal(j, k);
    }
  }

  lemma LowerIsSelf(keys: set<Str>, length: nat, k: Str)
    requires k in keys && |k| == length && forall j :: j in keys ==> |j| == length
    ensures IsLower(keys, k, k)
  {
    hide Less;
    LessIrreflexive(k);
    forall j | j in keys && j != k ensures Less(j, k) != Less(k, j) {
      LessTotal(j, k);
    }
  }

  /** The descent of the bounds went past previous; current is its child at the byte of k, or the root. */
  ghost predicate Passed(t: RadixTree, previous: Node?, current: Node?, depth: nat, k: Str)
    reads t, t.Repr, if previous == null then {} else {previous}, if current == null then {} else {current}
  {
    && t.root != null && |k| == t.length && depth <= t.length
    && (previous == null ==> current == t.root && depth == 0)
    && (previous != null ==>
          && t.Live(previous) && previous.full in t.trie.inner && Extends(previous.full, k)
          && current == if k[|previous.full|] in previous.kids then previous.kids[k[|previous.full|]] else null)
    && (current != null ==> Arrived(t, current, depth, k))
  }

  lemma PassRoot(t: RadixTree, k: Str)
    requires t.Wired() && t.root != null && |k| == t.length
    ensures Passed(t, null, t.root, 0, k)
  {
    hide RadixTree.Wired, Node.Rep, Arrived;
    ArriveRoot(t, k);
  }

  lemma PassByte(t: RadixTree, n: Node, depth: nat, k: Str)
    requires t.Wired() && t.root != null && Stepwise(t.trie) && Arrived(t, n, depth, k) && n.full in t.trie.inner
    ensures depth < |k| && n.Rep() && |k| == t.length
    ensures Passed(t, n, if k[depth] in n.kids then n.kids[k[depth]] else null, depth + 1, k)
  {
    hide RadixTree.Wired, Node.Rep, Trie.WF, Stepwise;
    NoPrefix(t, n);
    t.InnerDepth(n);
    assert n.full[..depth] == n.full;
    if k[depth] in n.kids {
      ArriveChild(t, n, depth, k);
    }
  }

  /** What is known when the descent falls off the tree, or ends in a leaf whose key is not k or above. */
  lemma FellOff(t: RadixTree, previous: Node, current: Node?, depth: nat, k: Str)
    requires t.Wired() && t.root != null && Passed(t, previous, current, depth, k)
    requires current != null ==> current.tag == Tag.Leaf
    ensures current == null ==> k !in t.trie.keys && t.Climbing(previous, k)
    ensures current != null ==> current.key == current.full && current.full in t.trie.keys && t.Position(current) && current != t.endLeaf
    ensures current != null ==> (k in t.trie.keys ==> k == current.key)
    ensures current != null && !Less(k, current.key) ==> t.Climbing(previous, k)
    ensures current != null && Less(k, current.key) ==> IsNext(t.trie.keys, k, current.key)
  {
    hide RadixTree.Wired, Node.Rep, Trie.WF, Less, IsNext, NoneAboveOnBranch;
    t.WiredTrie();
    t.LiveKind(previous);
    t.DummyKind();
    if current == null {
      EmptyBranch(t.trie, t.length, previous.full, k);
    } else {
      ArrivedKind(t, current, depth, k);
      t.NotEnd(current);
      t.LiveChild(previous, k[|previous.full|]);
      LeafBranch(t.trie, t.length, previous.full, k, current.full);
    }
  }

  /** The root is a leaf exactly when it is the only one. */
  lemma LoneLeaf(t: RadixTree)
    requires Valid(t) && t.root != null
    ensures t.root.tag == Tag.Leaf ==> t.count == 1 && t.trie.keys == {t.root.key} && t.Position(t.root) && t.root != t.endLeaf
    ensures t.root.tag != Tag.Leaf ==> t.count > 1
  {
    hide RadixTree.Wired, Node.Rep, Trie.WF, Sound, Stepwise;
    SoundParts(t);
    t.RootLive();
    t.LiveKind(t.root);
    if t.root.tag == Tag.Leaf {
      t.OnlyLeaf();
      t.NotEnd(t.root);
    } else {
      var a, b :| Both(t.trie.keys, t.root.full, a, b);
      assert |t.trie.keys - {a}| >= 1 by { assert b in t.trie.keys - {a}; }
    }
  }

  lemma KeySizes(t: RadixTree)
    requires t.Wired() && t.root != null
    ensures forall j :: j in t.trie.keys ==> |j| == t.length
  {
    hide RadixTree.Wired;
    forall j | j in t.trie.keys ensures |j| == t.length { t.KeySize(j); }
  }

  lemma PassedKind(t: RadixTree, previous: Node?, current: Node?, depth: nat, k: Str)
    requires t.Wired() && Passed(t, previous, current, depth, k)
    ensures |k| == t.length && t.root != null && (previous == null ==> current == t.root)
      && (current == null ==> previous != null)
    ensures previous != null ==> Extends(previous.full, k)
    ensures current != null ==> Arrived(t, current, depth, k) && (current.tag != Tag.Leaf <==> current.full in t.trie.inner)
    ensures current != null && current.tag == Tag.Leaf ==> |current.key| == |k| && current.key in t.trie.keys
    ensures current != null && current.tag == Tag.Leaf ==> t.Position(current) && current != t.endLeaf
  {
    hide RadixTree.Wired, Node.Rep;
    if current != null {
      ArrivedKind(t, current, depth, k);
      t.NotEnd(current);
    }
  }

  lemma SuccessorLower(t: RadixTree, k: Str, r: Node)
    requires t.Wired() && t.root != null && k !in t.trie.keys && |k| == t.length
    requires r == t.endLeaf || (t.Live(r) && r.tag == Tag.Leaf && r.key == r.full)
    requires if r == t.endLeaf then forall j :: j in t.trie.keys ==> !Less(k, j) else IsNext(t.trie.keys, k, r.full)
    ensures t.Position(r)
    ensures if r == t.endLeaf then forall j :: j in t.trie.keys ==> Less(j, k) else IsLower(t.trie.keys, k, r.key)
  {
    hide RadixTree.Wired, Node.Rep, Less, IsLower, IsNext;
    KeySizes(t);
    if r == t.endLeaf {
      LowerIsNext(t.trie.keys, t.length, k, k);
    } else {
      LowerIsNext(t.trie.keys, t.length, k, r.full);
    }
  }

  /** A leaf not below k, where the descent ended. */
  lemma LeafLower(t: RadixTree, previous: Node?, current: Node, depth: nat, k: Str)
    requires Valid(t) && Passed(t, previous, current, depth, k) && current.tag == Tag.Leaf && !Less(current.key, k)
    requires |k| == |current.key| ==> current.key == k || Less(k, current.key)
    ensures IsLower(t.trie.keys, k, current.key)
  {
    hide RadixTree.Wired, Node.Rep, Trie.WF, Sound, Less, IsLower, IsNext, Stepwise, Crowded, RadixTree.Climbing, Arrived;
    SoundParts(t);
    PassedKind(t, previous, current, depth, k);
    KeySizes(t);
    if current.key == k {
      LowerIsSelf(t.trie.keys, t.length, k);
    } else if previous == null {
      LoneLeaf(t);
      LoneLower(t.trie.keys, k, current.key);
    } else {
      LessIrreflexive(k);
      FellOff(t, previous, current, depth, k);
      LowerIsNext(t.trie.keys, t.length, k, current.key);
    }
  }

  lemma LoneLower(keys: set<Str>, k: Str, r: Str)
    requires keys == {r} && !Less(r, k)
    ensures IsLower(keys, k, r)
  {
  }

  /** lower_bound: correct except when the only key is below k, where it calls successor on a null pointer. */
  method LowerBound(t: RadixTree, k: Str) returns (b: Bound)
    requires Valid(t) && |k| == t.length
    ensures b == NullPointer <==> t.count == 1 && forall j :: j in t.trie.keys ==> Less(j, k)
    ensures b.At? ==> t.Position(b.node)
    ensures b.At? ==>
      if b.node == t.endLeaf then forall j :: j in t.trie.keys ==> Less(j, k) else IsLower(t.trie.keys, k, b.node.key)
  {
    hide RadixTree.Wired, Node.Rep, Trie.WF, Sound, Less, IsLower, IsNext, Stepwise, Crowded, RadixTree.Climbing, Passed, Arrived,
      RadixTree.Owned, RadixTree.Banded, Trie.Inhabited;
    SoundParts(t);
    if t.root == null {
      EmptyKeys(t);
      return At(t.endLeaf);
    }
    LoneLeaf(t);
    KeySizes(t);
    PassRoot(t, k);
    var previous: Node? := null;
    var current: Node? := t.root;
    var depth := 0;
    while depth < t.length + 1
      invariant depth <= t.length && Passed(t, previous, current, depth, k)
      invariant previous != null ==> t.count > 1
      decreases t.length + 1 - depth
    {
      PassedKind(t, previous, current, depth, k);
      if current == null {
        FellOff(t, previous, current, depth, k);
        var successor := t.Successor(previous, k);
        SuccessorLower(t, k, successor);
        return At(successor);
      }
      if current.tag == Tag.Leaf {
        var c := MemCmp(k, current.key);
        if c <= 0 {
          LeafLower(t, previous, current, depth, k);
          return At(current);
        }
        if previous == null {
          return NullPointer;
        }
        FellOff(t, previous, current, depth, k);
        var successor := t.Successor(previous, k);
        SuccessorLower(t, k, successor);
        return At(successor);
      }
      PassByte(t, current, depth, k);
      previous := current;
      current := current.Find(k[depth]);
      depth := depth + 1;
    }
    assert false;
  }

  lemma SuccessorUpper(t: RadixTree, k: Str, r: Node)
    requires t.Wired() && t.root != null
    requires r == t.endLeaf || (t.Live(r) && r.tag == Tag.Leaf && r.key == r.full)
    requires if r == t.endLeaf then forall j :: j in t.trie.keys ==> !Less(k, j) else IsNext(t.trie.keys, k, r.full)
    ensures t.Position(r)
    ensures if r == t.endLeaf then forall j :: j in t.trie.keys ==> !Less(k, j) else IsNext(t.trie.keys, k, r.key)
  {
  }

  /** A leaf above k, where the descent ended. */
  lemma LeafUpper(t: RadixTree, previous: Node?, current: Node, depth: nat, k: Str)
    requires Valid(t) && Passed(t, previous, current, depth, k) && current.tag == Tag.Leaf && Less(k, current.key)
    ensures IsNext(t.trie.keys, k, current.key)
  {
    hide RadixTree.Wired, Node.Rep, Trie.WF, Sound, Less, Stepwise, Crowded, RadixTree.Climbing, Arrived;
    SoundParts(t);
    PassedKind(t, previous, current, depth, k);
    if previous == null {
      LoneLeaf(t);
    } else {
      FellOff(t, previous, current, depth, k);
    }
  }

  /** upper_bound: correct except when the only key is not above k, where it calls successor on a null pointer. */
  method UpperBound(t: RadixTree, k: Str) returns (b: Bound)
    requires Valid(t) && |k| == t.length
    ensures b == NullPointer <==> t.count == 1 && forall j :: j in t.trie.keys ==> !Less(k, j)
    ensures b.At? ==> t.Position(b.node)
    ensures b.At? ==>
      if b.node == t.endLeaf then forall j :: j in t.trie.keys ==> !Less(k, j) else IsNext(t.trie.keys, k, b.node.key)
  {
    hide RadixTree.Wired, Node.Rep, Trie.WF, Sound, Less, IsNext, Stepwise, Crowded, RadixTree.Climbing, Passed, Arrived,
      RadixTree.Owned, RadixTree.Banded, Trie.Inhabited;
    SoundParts(t);
    if t.root == null {
      EmptyKeys(t);
      return At(t.endLeaf);
    }
    LoneLeaf(t);
    PassRoot(t, k);
    var previous: Node? := null;
    var current: Node? := t.root;
    var depth := 0;
    while depth < t.length + 1
      invariant depth <= t.length && Passed(t, previous, current, depth, k)
      invariant previous != null ==> t.count > 1
      decreases t.length + 1 - depth
    {
      PassedKind(t, previous, current, depth, k);
      if current == null {
        FellOff(t, previous, current, depth, k);
        var successor := t.Successor(previous, k);
        SuccessorUpper(t, k, successor);
        return At(successor);
      }
      if current.tag == Tag.Leaf {
        var c := MemCmp(k, current.key);
        if c < 0 {
          LeafUpper(t, previous, current, depth, k);
          return At(current);
        }
        if previous == null {
          return NullPointer;
        }
        FellOff(t, previous, current, depth, k);
        var successor := t.Successor(previous, k);
        SuccessorUpper(t, k, successor);
        return At(successor);
      }
      PassByte(t, current, depth, k);
      previous := current;
      current := current.Find(k[depth]);
      depth := depth + 1;
    }
    assert false;
  }
}
