/** History independence: the key set alone determines the trie and every node's header. */
module Shapes {
  import opened Bytes
  import opened Tries
  import opened Nodes
  import opened RadixTrees
  import opened Trees
  import P = PrefixTrees
  import A = ArTrees

  /** Two keys part right after s. */
  ghost predicate Part(keys: set<Str>, s: Str, a: Str, b: Str) {
    a in keys && b in keys && Extends(s, a) && Extends(s, b) && a[|s|] != b[|s|]
  }

  lemma InnerParts(tr: Trie, length: nat, s: Str) returns (a: Str, b: Str)
    requires tr.WF(length) && tr.Compressed() && s in tr.inner
    ensures Part(tr.keys, s, a, b)
  {
    P.CompressedInhabited(tr);
    assert tr.Branches(s, 2);
    var x, y := TwoBytes(tr.inner[s].Keys);
    assert tr.ChildOk(s, x) && tr.ChildOk(s, y);
    a := KeyBelow(tr, length, tr.inner[s][x]);
    b := KeyBelow(tr, length, tr.inner[s][y]);
  }

  lemma TwoBytes(s: set<Byte>) returns (x: Byte, y: Byte)
    requires |s| >= 2
    ensures x in s && y in s && x != y
  {
    x :| x in s;
    assert |s - {x}| >= 1;
    y :| y in s - {x};
  }

  /** The descent towards two keys that part right after s meets s. */
  lemma {:induction false} PartsMeet(tr: Trie, length: nat, u: Str, s: Str, a: Str, b: Str)
    requires tr.WF(length) && Part(tr.keys, s, a, b) && u in tr.Nodes() && u <= a && u <= b
    ensures s in tr.inner
    decreases |s| - |u|
  {
    NoLonger(u, s, a, b);
    assert |a| == length;
    if u == s {
      assert s !in tr.keys;
    } else {
      assert u !in tr.keys;
      KeyDescends(tr, length, u, a);
      KeyDescends(tr, length, u, b);
      assert a[|u|] == s[|u|] == b[|u|];
      assert tr.ChildOk(u, a[|u|]);
      NoLonger(tr.inner[u][a[|u|]], s, a, b);
      PartsMeet(tr, length, tr.inner[u][a[|u|]], s, a, b);
    }
  }

  lemma NoLonger(u: Str, s: Str, a: Str, b: Str)
    requires Extends(s, a) && Extends(s, b) && a[|s|] != b[|s|] && u <= a && u <= b
    ensures |u| <= |s| && u <= s
  {
  }

  /** The inner nodes of a compressed trie are the points where keys part. */
  lemma InnerIffParts(tr: Trie, length: nat, s: Str)
    requires tr.WF(length) && tr.Compressed()
    ensures s in tr.inner <==> exists a, b :: Part(tr.keys, s, a, b)
  {
    if s in tr.inner {
      var a, b := InnerParts(tr, length, s);
    }
    if a, b :| Part(tr.keys, s, a, b) {
      assert tr.root <= a && tr.root <= b;
      PartsMeet(tr, length, tr.root, s, a, b);
    }
  }

  lemma SameInner(t1: Trie, t2: Trie, length: nat)
    requires t1.WF(length) && t2.WF(length) && t1.Compressed() && t2.Compressed() && t1.keys == t2.keys
    ensures t1.inner.Keys == t2.inner.Keys
  {
    forall s ensures s in t1.inner <==> s in t2.inner {
      InnerIffParts(t1, length, s);
      InnerIffParts(t2, length, s);
    }
  }

  /** A well-formed trie is determined by its nodes: children are the nearest nodes below. */
  lemma SameChildren(t1: Trie, t2: Trie, length: nat, s: Str)
    requires t1.WF(length) && t2.WF(length) && t1.Nodes() == t2.Nodes() && s in t1.inner && s in t2.inner
    ensures t1.inner[s] == t2.inner[s]
  {
    forall b ensures b in t1.inner[s] <==> b in t2.inner[s] {
      if b in t1.inner[s] { assert t1.ChildOk(s, b) && t2.Descends(s, t1.inner[s][b]); }
      if b in t2.inner[s] { assert t2.ChildOk(s, b) && t1.Descends(s, t2.inner[s][b]); }
    }
    forall b | b in t1.inner[s] ensures t1.inner[s][b] == t2.inner[s][b] {
      assert t1.ChildOk(s, b) && t2.Descends(s, t1.inner[s][b]);
      assert t2.ChildOk(s, b) && t1.Descends(s, t2.inner[s][b]);
    }
  }

  lemma SameNodes(t1: Trie, t2: Trie, length: nat)
    requires t1.WF(length) && t2.WF(length) && t1.keys == t2.keys && t1.inner.Keys == t2.inner.Keys
    ensures t1 == t2
  {
    assert t1.Nodes() == t2.Nodes();
    forall s | s in t1.inner ensures t1.inner[s] == t2.inner[s] {
      SameChildren(t1, t2, length, s);
    }
    assert t1.root <= t2.root && t2.root <= t1.root;
  }

  /** Whatever operations led to them, compressed tries over the same keys are the same trie. */
  lemma Canonical(t1: Trie, t2: Trie, length: nat)
    requires t1.WF(length) && t2.WF(length) && t1.Compressed() && t2.Compressed() && t1.keys == t2.keys
    ensures t1 == t2
  {
    SameInner(t1, t2, length);
    SameNodes(t1, t2, length);
  }

  /** The smallest layout that holds count children. */
  function KindFor(count: nat): Tag {
    if count <= 4 then Node4 else if count <= 16 then Node16 else if count <= 48 then Node48 else Node256
  }

  /** Nodes that agree in everything but their identity, as far as their bytes are meaningful. */
  ghost predicate Alike(m: Node, n: Node)
    reads m, n
  {
    && m.tag == n.tag && m.count == n.count && m.depth == n.depth && m.prefixLength == n.prefixLength
    && m.kids.Keys == n.kids.Keys && |m.prefix| == |n.prefix| == MAX_PREFIX_LENGTH
    && forall i :: 0 <= i < m.prefixLength && i < MAX_PREFIX_LENGTH ==> m.prefix[i] == n.prefix[i]
  }

  /** The header of an inner node, read off the trie. */
  lemma HeaderOf(t: RadixTree, s: Str) returns (p: Str)
    requires Sound(t) && t.root != null && s in t.trie.inner
    ensures s in t.at && t.at[s].kids.Keys == t.trie.inner[s].Keys && t.at[s].count == |t.trie.inner[s]|
    ensures t.at[s].tag == KindFor(|t.trie.inner[s]|)
    ensures t.at[s].depth + t.at[s].prefixLength == |s| && |t.at[s].prefix| == MAX_PREFIX_LENGTH
    ensures forall i :: 0 <= i < t.at[s].prefixLength && i < MAX_PREFIX_LENGTH ==> t.at[s].prefix[i] == s[t.at[s].depth + i]
    ensures s == t.trie.root ==> t.at[s].depth == 0
    ensures s != t.trie.root ==> |p| < |s| && t.trie.Child(p, s[|p|], s) && t.at[s].depth == |p| + 1
  {
    hide Node.Sorted, Node.Indexed, Node.Direct, RadixTree.Wired, Trie.WF;
    SoundParts(t);
    t.WiredTrie();
    var n := t.at[s];
    NodeAt(t, s);
    t.InnerDepth(n);
    t.LiveKind(n);
    ParentChild(t, s);
    p := n.parent.full;
    assert t.BandOk(s);
    assert |n.kids.Keys| == |n.kids| && |t.trie.inner[s].Keys| == |t.trie.inner[s]|;
  }

  lemma NodeAt(t: RadixTree, s: Str)
    requires Sound(t) && s in t.trie.inner
    ensures s in t.at && t.at[s].full == s
  {
    hide Node.Rep, RadixTree.Anchored, RadixTree.LeafOk, RadixTree.KidsOk, RadixTree.PrefixOk, RadixTree.ParentOk, Trie.WF;
  }

  /** In the same trie, nodes of one name are alike. */
  lemma AlikeAt(x: RadixTree, y: RadixTree, s: Str)
    requires Sound(x) && Sound(y) && x.root != null && y.root != null && x.trie == y.trie && x.length == y.length
    requires s in x.trie.inner
    ensures s in x.at && s in y.at && Alike(x.at[s], y.at[s])
  {
    hide RadixTree.Wired, Node.Rep, Trie.WF, Sound, Trie.Compressed, KindFor, Trie.Child;
    var p := HeaderOf(x, s);
    var q := HeaderOf(y, s);
    SoundParts(x);
    x.WiredTrie();
    OneDepth(x.trie, x.length, s, p, x.at[s].depth, q, y.at[s].depth);
  }

  lemma OneDepth(tr: Trie, length: nat, s: Str, p: Str, d: nat, q: Str, e: nat)
    requires tr.WF(length) && (s == tr.root ==> d == e == 0)
    requires s != tr.root ==> |p| < |s| && tr.Child(p, s[|p|], s) && d == |p| + 1
    requires s != tr.root ==> |q| < |s| && tr.Child(q, s[|q|], s) && e == |q| + 1
    ensures d == e
  {
    if s != tr.root { ParentUnique(tr, length, p, s[|p|], q, s[|q|], s); }
  }

  /** Two prefix trees over the same keys have the same shape, whatever operations built them:
      the same nodes, parents, children, depths, prefixes and layouts. */
  lemma HistoryIndependence(x: RadixTree, y: RadixTree)
    requires P.Valid(x) && P.Valid(y) && x.length == y.length && x.trie.keys == y.trie.keys
    ensures x.root == null <==> y.root == null
    ensures x.root != null ==> x.trie == y.trie
    ensures forall s :: s in x.trie.inner ==> s in x.at && s in y.at && Alike(x.at[s], y.at[s])
  {
    hide RadixTree.Wired, Node.Rep, Trie.WF, Sound, Trie.Compressed, Alike;
    SoundParts(x);
    SoundParts(y);
    RootIffKeys(x);
    RootIffKeys(y);
    if x.root != null {
      x.WiredTrie();
      y.WiredTrie();
      Canonical(x.trie, y.trie, x.length);
      forall s | s in x.trie.inner ensures s in x.at && s in y.at && Alike(x.at[s], y.at[s]) {
        AlikeAt(x, y, s);
      }
    } else {
      EmptyKeys(x);
    }
  }

  lemma RootIffKeys(t: RadixTree)
    requires Sound(t)
    ensures t.root == null <==> t.trie.keys == {}
  {
    hide RadixTree.Wired, Node.Rep, Trie.WF, Sound, Trie.Compressed;
    SoundParts(t);
    if t.root == null {
      EmptyKeys(t);
    } else {
      t.WiredTrie();
      RootNode(t.trie, t.length);
      var k := KeyBelow(t.trie, t.length, t.trie.root);
    }
  }

  lemma RootNode(tr: Trie, length: nat)
    requires tr.WF(length)
    ensures tr.root in tr.Nodes()
  {
  }

  // ---- ar_tree ----

  /** The inner nodes of an ar_tree are the prefixes that two keys share. */
  lemma InnerIffShared(tr: Trie, length: nat, s: Str)
    requires tr.WF(length) && A.Stepwise(tr) && A.Crowded(tr, tr.keys)
    ensures s in tr.inner <==> A.Shared(tr.keys, s)
  {
    if A.Shared(tr.keys, s) {
      var a, b :| A.Both(tr.keys, s, a, b);
      assert tr.root <= a && tr.root <= b;
      if tr.root in tr.keys {
        PrefixEqual(tr.root, a);
        PrefixEqual(tr.root, b);
      } else {
        SharedMeet(tr, length, tr.root, s, a, b);
      }
    }
  }

  /** The descent towards two keys meets every prefix that they share. */
  lemma {:induction false} SharedMeet(tr: Trie, length: nat, u: Str, s: Str, a: Str, b: Str)
    requires tr.WF(length) && A.Stepwise(tr) && A.Both(tr.keys, s, a, b) && u in tr.inner && u <= s
    ensures s in tr.inner
    decreases |s| - |u|
  {
    if |u| < |s| {
      KeyDescends(tr, length, u, a);
      KeyDescends(tr, length, u, b);
      assert a[|u|] == s[|u|] == b[|u|];
      var c := tr.inner[u][s[|u|]];
      assert tr.ChildOk(u, s[|u|]);
      if c in tr.keys {
        PrefixEqual(c, a);
        PrefixEqual(c, b);
      }
      assert c <= a && s <= a && |c| == |u| + 1 <= |s|;
      SharedMeet(tr, length, c, s, a, b);
    } else {
      assert u == s;
    }
  }

  /** The uncompressed trie, too, is determined by its keys. */
  lemma ArCanonical(t1: Trie, t2: Trie, length: nat)
    requires t1.WF(length) && t2.WF(length) && t1.keys == t2.keys
    requires A.Stepwise(t1) && A.Crowded(t1, t1.keys) && A.Stepwise(t2) && A.Crowded(t2, t2.keys)
    ensures t1 == t2
  {
    forall s ensures s in t1.inner <==> s in t2.inner {
      InnerIffShared(t1, length, s);
      InnerIffShared(t2, length, s);
    }
    SameNodes(t1, t2, length);
  }

  /** Two ar_trees over the same keys have the same shape, whatever operations built them. */
  lemma ArHistoryIndependence(x: RadixTree, y: RadixTree)
    requires A.Valid(x) && A.Valid(y) && x.length == y.length && x.trie.keys == y.trie.keys
    ensures x.root == null <==> y.root == null
    ensures x.root != null ==> x.trie == y.trie
    ensures forall s :: s in x.trie.inner ==> s in x.at && s in y.at && Alike(x.at[s], y.at[s])
  {
    hide RadixTree.Wired, Node.Rep, Trie.WF, Sound, A.Stepwise, A.Crowded, Alike;
    SoundParts(x);
    SoundParts(y);
    RootIffKeys(x);
    RootIffKeys(y);
    if x.root != null {
      x.WiredTrie();
      y.WiredTrie();
      ArCanonical(x.trie, y.trie, x.length);
      forall s | s in x.trie.inner ensures s in x.at && s in y.at && Alike(x.at[s], y.at[s]) {
        AlikeAt(x, y, s);
      }
    } else {
      EmptyKeys(x);
    }
  }

  // ---- From ar_tree to ar_prefix_tree ----

  /** s is a one-way node with the only child c, below p or at the root. */
  ghost predicate OneWay(tr: Trie, p: Str, s: Str, c: Str) {
    && Extends(s, c) && s in tr.inner && tr.inner[s] == map[c[|s|] := c]
    && (s == tr.root || (|p| < |s| && tr.Child(p, s[|p|], s)))
  }

  /** n contractions of one-way nodes turn tr into result. */
  ghost predicate Contracts(tr: Trie, result: Trie, n: nat)
    decreases n
  {
    if n == 0 then tr == result
    else exists p, s, c {:trigger OneWay(tr, p, s, c)} :: OneWay(tr, p, s, c) && Contracts(tr.Contract(p, s, c), result, n - 1)
  }

  lemma StepKeeps(tr: Trie, length: nat, p: Str, s: Str, c: Str)
    requires tr.WF(length) && tr.Inhabited() && OneWay(tr, p, s, c)
    ensures tr.Contract(p, s, c).WF(length) && tr.Contract(p, s, c).Inhabited() && tr.Contract(p, s, c).keys == tr.keys
    ensures |tr.Contract(p, s, c).inner| == |tr.inner| - 1
  {
    hide Trie.WF, Trie.Inhabited;
    ContractWF(tr, length, p, s, c[|s|], c);
    ContractInhabited(tr, p, s, c);
    ContractShrinks(tr, p, s, c);
  }

  lemma ContractShrinks(tr: Trie, p: Str, s: Str, c: Str)
    requires s in tr.inner && (s == tr.root || (|p| < |s| && p in tr.inner))
    ensures |tr.Contract(p, s, c).inner| == |tr.inner| - 1
  {
    var m := tr.Contract(p, s, c).inner;
    assert m.Keys == tr.inner.Keys - {s};
    assert |m| == |m.Keys| && |tr.inner| == |tr.inner.Keys|;
  }

  lemma ParentOf(tr: Trie, length: nat, s: Str) returns (p: Str)
    requires tr.WF(length) && s in tr.Nodes() && s != tr.root
    ensures |p| < |s| && tr.Child(p, s[|p|], s)
  {
    assert tr.root <= s;
    PrefixEqual(tr.root, s);
    p := Above(tr, length, tr.root, s);
  }

  lemma {:induction false} Above(tr: Trie, length: nat, u: Str, s: Str) returns (p: Str)
    requires tr.WF(length) && s in tr.Nodes() && u in tr.Nodes() && Extends(u, s)
    ensures |p| < |s| && tr.Child(p, s[|p|], s)
    decreases |s| - |u|
  {
    assert u !in tr.keys;
    assert tr.Descends(u, s) && tr.ChildOk(u, s[|u|]);
    var c := tr.inner[u][s[|u|]];
    if c == s {
      p := u;
    } else {
      PrefixEqual(c, s);
      p := Above(tr, length, c, s);
    }
  }

  lemma OneWayAt(tr: Trie, length: nat, s: Str) returns (p: Str, c: Str)
    requires tr.WF(length) && tr.Inhabited() && s in tr.inner && !tr.Branches(s, 2)
    ensures OneWay(tr, p, s, c)
  {
    assert tr.Branches(s, 1);
    var b :| b in tr.inner[s];
    assert tr.ChildOk(s, b);
    c := tr.inner[s][b];
    SingleByte(tr.inner[s], b);
    p := [];
    if s != tr.root { p := ParentOf(tr, length, s); }
  }

  lemma {:induction false} ContractsFully(tr: Trie, length: nat) returns (result: Trie, n: nat)
    requires tr.WF(length) && tr.Inhabited()
    ensures Contracts(tr, result, n) && result.WF(length) && result.Compressed() && result.keys == tr.keys
    decreases |tr.inner|
  {
    hide Trie.WF, Trie.Inhabited, Trie.Contract;
    if s :| s in tr.inner && !tr.Branches(s, 2) {
      var p, c := OneWayAt(tr, length, s);
      StepKeeps(tr, length, p, s, c);
      result, n := ContractsFully(tr.Contract(p, s, c), length);
      n := n + 1;
    } else {
      result, n := tr, 0;
    }
  }

  lemma SingleByte(m: map<Byte, Str>, b: Byte)
    requires b in m && |m| < 2
    ensures m == map[b := m[b]]
  {
    assert |m.Keys - {b}| == 0;
  }

  lemma {:induction false} ContractsKeep(tr: Trie, length: nat, result: Trie, n: nat)
    requires tr.WF(length) && tr.Inhabited() && Contracts(tr, result, n)
    ensures result.WF(length) && result.keys == tr.keys
    decreases n
  {
    hide Trie.WF, Trie.Inhabited, Trie.Contract;
    if n > 0 {
      var p, s, c :| OneWay(tr, p, s, c) && Contracts(tr.Contract(p, s, c), result, n - 1);
      StepKeeps(tr, length, p, s, c);
      ContractsKeep(tr.Contract(p, s, c), length, result, n - 1);
    }
  }

  /** Contracting the one-way nodes of an ar_tree, in any order, gives the ar_prefix_tree of the same keys. */
  lemma ContractionIsPrefixTree(x: RadixTree, y: RadixTree)
    requires P.Valid(x) && A.Valid(y) && x.length == y.length && x.trie.keys == y.trie.keys && x.root != null
    ensures y.root != null && exists n :: Contracts(y.trie, x.trie, n)
    ensures forall result, n :: Contracts(y.trie, result, n) && result.Compressed() ==> result == x.trie
  {
    hide RadixTree.Wired, Node.Rep, Trie.WF, Sound, A.Stepwise, A.Crowded, Contracts, Trie.Compressed;
    SoundParts(x);
    SoundParts(y);
    RootIffKeys(x);
    RootIffKeys(y);
    x.WiredTrie();
    y.WiredTrie();
    forall result, n | Contracts(y.trie, result, n) && result.Compressed() ensures result == x.trie {
      ContractsKeep(y.trie, y.length, result, n);
      Canonical(result, x.trie, x.length);
    }
    var result, n := ContractsFully(y.trie, y.length);
  }
}
