/** What both radix trees share: the abstract map, the descent, and single insertions and erasures. */
module Trees {
  import opened Bytes
  import opened Tries
  import opened Nodes
  import opened RadixTrees

  /** The tree agrees with its trie, every layout fits, and the count is right. */
  ghost predicate Sound(t: RadixTree)
    reads t, t.Repr
  {
    && t.Wired() && t.Banded({}) && t.trie.Inhabited()
    && t.count == |t.trie.keys| && 0 < t.length <= 0x1_0000
  }

  /** What an operation may rely on between steps without looking at the definition of Sound. */
  lemma SoundParts(t: RadixTree)
    requires Sound(t)
    ensures t.Wired() && t.trie.Inhabited() && t.Owned() && t.Banded({})
    ensures t.count == |t.trie.keys| && 0 < t.length <= 0x1_0000
  {
    hide RadixTree.Anchored, RadixTree.LeafOk, RadixTree.KidsOk, RadixTree.PrefixOk, RadixTree.ParentOk;
  }

  /** The abstract map: every key with the value of its leaf. */
  ghost function Contents(t: RadixTree): map<Str, Value>
    reads t
  {
    map k | k in t.trie.keys && k in t.at :: t.at[k].value
  }

  lemma ContentsKeys(t: RadixTree)
    requires Sound(t)
    ensures Contents(t).Keys == t.trie.keys
  {
    hide RadixTree.Wired, Node.Rep, Sound;
    SoundParts(t);
    KeysLive(t);
  }

  /** If k is stored, it is stored at or below n. */
  ghost predicate Seeking(t: RadixTree, n: Node, depth: nat, k: Str)
    reads t, t.Repr, n
  {
    && t.root != null && t.Live(n) && t.AtDepth(n, depth) && |k| == t.length
    && (k in t.trie.keys ==> n.full <= k)
  }

  lemma SeekRoot(t: RadixTree, k: Str)
    requires t.Wired() && t.root != null && |k| == t.length
    ensures Seeking(t, t.root, 0, k)
  {
    hide Node.Rep, RadixTree.LeafOk, RadixTree.PrefixOk, RadixTree.KidsOk, RadixTree.ParentOk;
    t.RootLive();
  }

  lemma SeekChild(t: RadixTree, n: Node, depth: nat, k: Str)
    requires t.Wired() && Seeking(t, n, depth, k) && n.full in t.trie.inner && |n.full| < |k|
    ensures k[|n.full|] in n.kids ==> Seeking(t, n.kids[k[|n.full|]], |n.full| + 1, k)
    ensures k[|n.full|] !in n.kids ==> k !in t.trie.keys
  {
    hide RadixTree.Wired, Node.Rep, Trie.WF;
    t.LiveKind(n);
    t.WiredTrie();
    if k[|n.full|] in n.kids {
      t.LiveChild(n, k[|n.full|]);
      t.LinkedAt(n.full, n.kids[k[|n.full|]].full);
    }
    if k in t.trie.keys {
      KeyDescends(t.trie, t.length, n.full, k);
    }
  }

  lemma SeekLeaf(t: RadixTree, n: Node, depth: nat, k: Str)
    requires t.Wired() && Seeking(t, n, depth, k) && n.tag == Tag.Leaf
    ensures n.key == k <==> k in t.trie.keys
    ensures n.key == k ==> k in t.at && n == t.at[k]
  {
    hide RadixTree.Wired, Node.Rep;
    t.LiveKind(n);
    PrefixEqual(n.full, k);
  }

  lemma EmptyKeys(t: RadixTree)
    requires t.Wired() && t.root == null
    ensures t.trie.keys == {} && t.trie.inner == map[] && t.at == map[]
  {
    hide Node.Rep;
  }

  lemma SeekKind(t: RadixTree, n: Node, depth: nat, k: Str)
    requires t.Wired() && Seeking(t, n, depth, k)
    ensures n.tag != Tag.Leaf ==> n.full in t.trie.inner && n.Rep()
    ensures n.tag != Tag.Leaf ==> |n.prefix| == MAX_PREFIX_LENGTH && n.depth + n.prefixLength <= |k|
    ensures n.tag == Tag.Leaf ==> t.Live(n) && n != t.endLeaf && n.full in t.trie.keys
    ensures |k| == t.length
  {
    hide RadixTree.Wired, Node.Rep;
    t.LiveKind(n);
    t.NotEnd(n);
    if n.tag != Tag.Leaf { t.SplitReady(n); }
  }

  /** Descent has reached n: the bytes before n's own are those of k. */
  ghost predicate Arrived(t: RadixTree, n: Node, depth: nat, k: Str)
    reads t, n
  {
    && t.root != null && t.Live(n) && t.AtDepth(n, depth) && |k| == t.length
    && depth <= |n.full| && depth <= |k| && n.full[..depth] == k[..depth]
  }

  lemma ArriveRoot(t: RadixTree, k: Str)
    requires t.Wired() && t.root != null && |k| == t.length
    ensures Arrived(t, t.root, 0, k)
  {
    hide RadixTree.Wired;
    t.RootLive();
  }

  lemma ArriveChild(t: RadixTree, n: Node, depth: nat, k: Str)
    requires t.Wired() && Arrived(t, n, depth, k) && n.full in t.trie.inner && n.full <= k && |n.full| < |k|
    requires k[|n.full|] in n.kids
    ensures Arrived(t, n.kids[k[|n.full|]], |n.full| + 1, k)
  {
    hide RadixTree.Wired, Node.Rep, Trie.WF;
    t.LiveKind(n);
    t.WiredTrie();
    t.LiveChild(n, k[|n.full|]);
    var c := n.kids[k[|n.full|]];
    t.LinkedAt(n.full, c.full);
    assert c.full[..|n.full| + 1] == n.full + [k[|n.full|]] == k[..|n.full| + 1];
  }

  lemma ArrivedKind(t: RadixTree, n: Node, depth: nat, k: Str)
    requires t.Wired() && Arrived(t, n, depth, k)
    ensures t.Live(n) && depth <= t.length
    ensures n.tag == Tag.Leaf <==> n.full in t.trie.keys
    ensures n.tag != Tag.Leaf <==> n.full in t.trie.inner
    ensures n.tag == Tag.Leaf ==> n.key == n.full && |n.key| == |k| == t.length
    ensures n.tag != Tag.Leaf ==> n.full in t.trie.inner && n.Rep() && |n.prefix| == MAX_PREFIX_LENGTH
    ensures n.tag != Tag.Leaf ==> n.depth == depth && n.depth + n.prefixLength == |n.full| < |k|
    ensures n.tag != Tag.Leaf ==>
      forall i :: 0 <= i < n.prefixLength && i < MAX_PREFIX_LENGTH ==> n.prefix[i] == n.full[n.depth + i]
  {
    hide RadixTree.Wired, Node.Rep;
    t.LiveKind(n);
    if n.tag != Tag.Leaf { t.InnerDepth(n); }
  }

  /** Node n is where the absent key k goes; it may lack one child for its layout. */
  ghost predicate Open(t: RadixTree, n: Node, k: Str)
    reads t, t.Repr, n
  {
    && t.Wired() && t.root != null && t.Banded({n.full}) && t.count == |t.trie.keys| && t.Live(n)
    && n.full in t.trie.inner && Extends(n.full, k) && |k| == t.length <= 0x1_0000 && k[|n.full|] !in t.trie.inner[n.full]
    && t.trie.Inhabited()
    && (n.tag == Node4 || MinSize(n.tag) <= n.count + 1)
  }

  /** A one-child node put above c, where k leaves it, is open for k. */
  twostate lemma Forks(t: RadixTree, new p: Str, new c: Str, new n: nat, new m: Node, new k: Str)
    requires old(Sound(t) && t.root != null && c in t.at)
    requires c == old(t.trie.root) || (p in old(t.trie.inner) && |p| < |c|)
    requires n < |c| && n < |k| == t.length && c[..n] == k[..n] && c[n] != k[n]
    requires t.Wired() && t.root != null && t.count == old(t.count) && t.Live(m) && m.tag == Node4 && m.full == c[..n]
    requires t.trie == old(t.trie).Interpose(p, c, n) && t.trie.Inhabited()
    requires forall u :: u in t.trie.inner && u in old(t.trie.inner) && old(t.BandOk(u)) ==> t.BandOk(u)
    ensures Open(t, m, k)
  {
    hide RadixTree.Anchored, RadixTree.LeafOk, RadixTree.KidsOk, RadixTree.PrefixOk, RadixTree.ParentOk, Node.Rep,
      Trie.WF, RadixTree.BandOk, Trie.Inhabited, Trie.Interpose, RadixTree.Banded, RadixTree.Owned;
    InterposeParts(old(t.trie), p, c, n);
    assert m.full in t.trie.inner && k[|m.full|] !in t.trie.inner[m.full];
    BandedBut(t, m.full);
  }

  twostate lemma BandedBut(t: RadixTree, new s: Str)
    requires old(t.Owned() && t.Banded({})) && t.Owned() && t.trie.inner.Keys == old(t.trie.inner.Keys) + {s}
    requires forall u :: u in t.trie.inner && u in old(t.trie.inner) && old(t.BandOk(u)) ==> t.BandOk(u)
    ensures t.Banded({s})
  {
    hide RadixTree.Owned, RadixTree.BandOk;
  }

  lemma InterposeParts(tr: Trie, p: Str, c: Str, n: nat)
    requires n < |c| && (c == tr.root || (p in tr.inner && |p| < |c|))
    ensures var tr' := tr.Interpose(p, c, n);
      tr'.keys == tr.keys && tr'.inner.Keys == tr.inner.Keys + {c[..n]} && tr'.inner[c[..n]] == map[c[n] := c]
  {
  }

  lemma OpenParts(t: RadixTree, n: Node, k: Str)
    requires Open(t, n, k)
    ensures t.Wired() && t.root != null && t.Live(n) && n.full in t.trie.inner && Extends(n.full, k) && |k| == t.length
    ensures k[|n.full|] !in n.kids && n.Rep() && n in t.Repr && IsInner(n.tag)
    ensures n.depth + n.prefixLength == |n.full|
    ensures k !in t.trie.keys && k !in t.at
    ensures n.count == |n.kids| <= MaxSize(n.tag)
  {
    hide RadixTree.Anchored, RadixTree.LeafOk, RadixTree.KidsOk, RadixTree.PrefixOk, RadixTree.ParentOk, Trie.WF,
      Trie.Inhabited, Node.Sorted, Node.Indexed, Node.Direct;
    t.LiveKind(n);
    t.LiveOwned(n);
    t.HangReady(n.full, k);
  }

  lemma {:induction false} UpTo(i: nat) returns (all: set<Byte>)
    requires i <= 256
    ensures |all| == i && forall b: Byte :: b in all <==> b < i
  {
    if i == 0 {
      all := {};
    } else {
      all := UpTo(i - 1);
      all := all + {i - 1};
    }
  }

  lemma FewerThanAll(s: set<Byte>, b: Byte)
    requires b !in s
    ensures |s| < 256
  {
    var all := UpTo(256);
    SubsetSize(s, all - {b});
    assert |all - {b}| == 255;
  }

  /** A node with an absent byte is no full Node256. */
  lemma NotFull256(n: Node, b: Byte)
    requires b !in n.kids && n.count == |n.kids| == MaxSize(n.tag)
    ensures n.tag != Node256
  {
    FewerThanAll(n.kids.Keys, b);
    assert |n.kids.Keys| == |n.kids|;
  }

  /** Every key has the same leaf in both maps. */
  ghost predicate SameLeaves(keys: set<Str>, at0: map<Str, Node>, at1: map<Str, Node>) {
    forall j :: j in keys ==> j in at0 && j in at1 && at1[j] == at0[j]
  }

  lemma SameLeavesUpdate(keys: set<Str>, at0: map<Str, Node>, at1: map<Str, Node>, s: Str, n: Node)
    requires SameLeaves(keys, at0, at1) && s !in keys
    ensures SameLeaves(keys, at0, at1[s := n])
  {
  }

  lemma SameLeavesRemove(keys: set<Str>, at0: map<Str, Node>, at1: map<Str, Node>, s: Str)
    requires SameLeaves(keys, at0, at1)
    ensures SameLeaves(keys - {s}, at0, at1 - {s})
    ensures s !in keys ==> SameLeaves(keys, at0, at1 - {s})
  {
  }

  lemma SameLeavesTrans(keys: set<Str>, at0: map<Str, Node>, at1: map<Str, Node>, at2: map<Str, Node>)
    requires SameLeaves(keys, at0, at1) && SameLeaves(keys, at1, at2)
    ensures SameLeaves(keys, at0, at2)
  {
  }

  /** The stored keys and their leaves are those of before. */
  twostate predicate KeysKept(t: RadixTree)
    reads t
  {
    t.trie.keys == old(t.trie.keys) && t.count == old(t.count) && SameLeaves(t.trie.keys, old(t.at), t.at)
  }

  /** The key k has been added with leaf as its leaf. */
  twostate predicate Added(t: RadixTree, new k: Str, new leaf: Node)
    reads t
  {
    && k !in old(t.trie.keys) && t.trie.keys == old(t.trie.keys) + {k} && t.count == old(t.count) + 1
    && k in t.at && t.at[k] == leaf && SameLeaves(old(t.trie.keys), old(t.at), t.at)
  }

  /** The key k has been taken away. */
  twostate predicate Removed(t: RadixTree, new k: Str)
    reads t
  {
    && k in old(t.trie.keys) && t.trie.keys == old(t.trie.keys) - {k} && t.count == old(t.count) - 1
    && SameLeaves(t.trie.keys, old(t.at), t.at)
  }

  twostate lemma NothingMoved(t: RadixTree)
    requires t.trie == old(t.trie) && t.count == old(t.count) && t.at == old(t.at) && t.trie.keys <= t.at.Keys
    ensures KeysKept(t)
  {
  }

  twostate lemma AddedContents(t: RadixTree, new k: Str, new leaf: Node)
    requires Added(t, k, leaf)
    ensures Contents(t) == old(Contents(t))[k := leaf.value]
  {
  }

  twostate lemma KeptContents(t: RadixTree)
    requires KeysKept(t)
    ensures Contents(t) == old(Contents(t))
  {
  }

  lemma UnstoredContents(t: RadixTree, k: Str)
    ensures k !in t.trie.keys ==> Contents(t) == Contents(t) - {k}
  {
  }

  twostate lemma RemovedContents(t: RadixTree, new k: Str)
    requires Removed(t, k)
    ensures Contents(t) == old(Contents(t)) - {k}
  {
  }

  twostate lemma Reopened(t: RadixTree, new s: Str, new m: Node, new k: Str)
    requires old(s in t.at && t.at[s].full == s && Open(t, t.at[s], k))
    requires t.Wired() && t.root != null && t.Live(m) && m.full == s
    requires t.trie == old(t.trie) && t.count == old(t.count)
    requires forall u :: u in t.trie.inner && u != s && old(t.BandOk(u)) ==> t.BandOk(u)
    requires RadixTree.Resized(m, true)
    ensures Open(t, m, k)
  {
    hide RadixTree.Anchored, RadixTree.LeafOk, RadixTree.KidsOk, RadixTree.PrefixOk, RadixTree.ParentOk, Node.Rep,
      Trie.WF, RadixTree.BandOk, Trie.Inhabited;
  }

  lemma RoomAfterGrow(m: Node)
    requires RadixTree.Resized(m, true) && IsInner(m.tag)
    ensures m.count < MaxSize(m.tag)
  {
  }

  lemma OpenKeys(t: RadixTree, n: Node, k: Str)
    requires Open(t, n, k)
    ensures SameLeaves(t.trie.keys, t.at, t.at)
    ensures n.full !in t.trie.keys && k !in t.trie.keys && t.Live(n) && |n.full| < t.length
  {
    hide RadixTree.Wired, Node.Rep, Trie.WF, RadixTree.BandOk;
    t.LiveKind(n);
    KeysLive(t);
    OpenParts(t, n, k);
  }

  /** grow when there is no room for another child. */
  method MakeRoom(t: RadixTree, n: Node, k: Str) returns (m: Node)
    requires Open(t, n, k)
    modifies t.Repr
    ensures Open(t, m, k) && m.count < MaxSize(m.tag) && m.full == n.full && fresh(t.Repr - old(t.Repr))
    ensures t.trie == old(t.trie) && KeysKept(t)
  {
    hide RadixTree.Wired, Node.Rep, Trie.WF, Open, RadixTree.BandOk, RadixTree.Resized, SameLeaves;
    OpenParts(t, n, k);
    OpenKeys(t, n, k);
    SameLeavesUpdate(t.trie.keys, t.at, t.at, n.full, n);
    m := n;
    if n.count == MaxSize(n.tag) {
      NotFull256(n, k[|n.full|]);
      m := t.Resize(n, k, true);
      Reopened(t, n.full, m, k);
      OpenParts(t, m, k);
      RoomAfterGrow(m);
      SameLeavesUpdate(t.trie.keys, old(t.at), old(t.at), n.full, m);
    }
  }

  lemma HangInhabited(tr: Trie, s: Str, k: Str)
    requires tr.Inhabited() && s in tr.inner && Extends(s, k) && k[|s|] !in tr.inner[s] && k !in tr.keys
    ensures tr.Hang(s, k).Inhabited() && |tr.Hang(s, k).keys| == |tr.keys| + 1
  {
    var tr' := tr.Hang(s, k);
    assert tr'.inner[s].Keys == tr.inner[s].Keys + {k[|s|]};
    forall u | u in tr'.inner ensures tr'.Branches(u, 1) {
      assert tr.Branches(u, 1);
    }
  }

  twostate lemma BandedAll(t: RadixTree, new s: Str)
    requires old(t.Owned() && t.Banded({s})) && t.Owned() && t.trie.inner.Keys == old(t.trie.inner.Keys) && t.BandOk(s)
    requires forall u :: u in t.trie.inner && u != s && old(t.BandOk(u)) ==> t.BandOk(u)
    ensures t.Banded({})
  {
    hide RadixTree.Owned, RadixTree.BandOk;
  }

  twostate lemma FilledBand(t: RadixTree, new s: Str, new k: Str)
    requires old(s in t.at && t.at[s].full == s && Open(t, t.at[s], k)) && t.Owned()
    requires s in t.at && t.at[s] == old(t.at[s]) && t.at[s].count == old(t.at[s].count) + 1
    ensures t.BandOk(s)
  {
    hide RadixTree.Owned, RadixTree.Wired, Trie.Inhabited, Trie.WF;
  }

  lemma HangParts(tr: Trie, s: Str, k: Str)
    requires s in tr.inner && |s| < |k|
    ensures tr.Hang(s, k).inner.Keys == tr.inner.Keys && tr.Hang(s, k).keys == tr.keys + {k}
  {
  }

  twostate lemma Filled(t: RadixTree, new s: Str, new k: Str)
    requires old(s in t.at && t.at[s].full == s && Open(t, t.at[s], k))
    requires t.Wired() && t.root != null && t.trie == old(t.trie).Hang(s, k) && k !in old(t.trie.keys)
    requires s in t.at && t.at[s] == old(t.at[s]) && t.at[s].count == old(t.at[s].count) + 1
    requires t.count == old(t.count) + 1
    requires forall u :: u in t.trie.inner && u != s && old(t.BandOk(u)) ==> t.BandOk(u)
    ensures Sound(t)
  {
    hide RadixTree.Anchored, RadixTree.LeafOk, RadixTree.KidsOk, RadixTree.PrefixOk, RadixTree.ParentOk, Node.Rep,
      Trie.WF, RadixTree.Owned, RadixTree.BandOk, RadixTree.Banded, Trie.Inhabited, Trie.Hang;
    HangInhabited(old(t.trie), s, k);
    HangParts(old(t.trie), s, k);
    FilledBand(t, s, k);
    BandedAll(t, s);
  }

  /** insert_leaf below an inner node with room. */
  method PutLeaf(t: RadixTree, n: Node, leaf: Node, k: Str)
    requires Open(t, n, k) && n.count < MaxSize(n.tag)
    requires leaf !in t.Repr && leaf.bytes !in t.Repr && leaf.children !in t.Repr
    requires leaf.full == leaf.key == k && leaf.tag == Tag.Leaf && leaf.parent == n
    modifies t.Repr
    ensures Sound(t) && t.Repr == old(t.Repr) + {leaf, leaf.bytes, leaf.children}
    ensures n.full in old(t.trie.inner) && Extends(n.full, k) && t.trie == old(t.trie).Hang(n.full, k)
    ensures t.at == old(t.at)[k := leaf] && k !in old(t.trie.keys) && t.count == old(t.count) + 1
  {
    hide RadixTree.Wired, Node.Rep, Trie.WF, Open, RadixTree.BandOk, Sound;
    OpenParts(t, n, k);
    t.HangLeaf(n, leaf, k);
    Filled(t, n.full, k);
  }

  lemma ParentChild(t: RadixTree, s: Str)
    requires t.Wired() && t.root != null && s in t.at
    ensures t.at[s].parent != null
    ensures s == t.trie.root || (|t.at[s].parent.full| < |s| && t.trie.Child(t.at[s].parent.full, s[|t.at[s].parent.full|], s))
  {
    hide Node.Rep, RadixTree.LeafOk, RadixTree.Anchored, RadixTree.PrefixOk, RadixTree.KidsOk, Trie.WF;
    assert t.ParentOk(s);
  }

  lemma WholePrefix(a: Str, b: Str, j: nat)
    requires |a| == |b| && j <= |a| && a[..j] == b[..j]
    ensures j == |a| ==> a == b
  {
    if j == |a| { assert a == a[..j] && b == b[..j]; }
  }

  twostate lemma KeysKeptBy(t: RadixTree, new m: Node)
    requires t.trie.keys == old(t.trie.keys) && t.count == old(t.count) && t.at == old(t.at)[m.full := m]
    requires m.full !in old(t.trie.keys) && old(t.trie.keys <= t.at.Keys)
    ensures KeysKept(t)
  {
  }

  lemma KeysLive(t: RadixTree)
    requires t.Wired()
    ensures t.trie.keys <= t.at.Keys
  {
    hide Node.Rep, RadixTree.LeafOk, RadixTree.Anchored, RadixTree.PrefixOk, RadixTree.KidsOk, RadixTree.ParentOk;
  }

  lemma OpenHere(t: RadixTree, n: Node, k: Str)
    requires Sound(t) && t.root != null && t.Live(n) && n.full in t.trie.inner && |k| == t.length
    requires Extends(n.full, k) && k[|n.full|] !in n.kids
    ensures Open(t, n, k)
  {
    hide RadixTree.Wired, Node.Rep, Trie.WF, Trie.Inhabited;
    SoundParts(t);
    t.LiveKind(n);
    assert t.BandOk(n.full);
  }

  /** The leaf of k becomes the root of the empty tree. */
  method PutRoot(t: RadixTree, leaf: Node, k: Str)
    requires Sound(t) && t.root == null && |k| == t.length
    requires leaf !in t.Repr && leaf.bytes !in t.Repr && leaf.children !in t.Repr
    requires leaf.full == leaf.key == k && leaf.tag == Tag.Leaf && leaf.parent == t.dummy
    modifies t.Repr
    ensures Sound(t) && Added(t, k, leaf) && t.Repr == old(t.Repr) + {leaf, leaf.bytes, leaf.children}
    ensures t.trie == Trie(k, map[], {k})
  {
    hide RadixTree.Wired, Node.Rep, Trie.WF, RadixTree.BandOk, RadixTree.Owned, Sound;
    SoundParts(t);
    EmptyKeys(t);
    OwnsItself(t);
    t.HangRoot(leaf, k);
    FirstSound(t, k);
  }

  method InsertFirst(t: RadixTree, k: Str, v: Value) returns (r: Node)
    requires Sound(t) && t.root == null && |k| == t.length
    modifies t.Repr
    ensures Sound(t) && fresh(t.Repr - old(t.Repr)) && fresh(r) && r.value == v && Added(t, k, r)
    ensures t.trie == Trie(k, map[], {k})
  {
    hide RadixTree.Wired, Node.Rep, Trie.WF, RadixTree.BandOk, Sound, SameLeaves;
    SoundParts(t);
    OwnsItself(t);
    r := new Node.Leaf(k, v, t.dummy);
    PutRoot(t, r, k);
  }

  lemma OwnsItself(t: RadixTree)
    requires t.Wired()
    ensures t in t.Repr && t.dummy in t.Repr
  {
    hide Node.Rep, RadixTree.LeafOk, RadixTree.Anchored, RadixTree.PrefixOk, RadixTree.KidsOk, RadixTree.ParentOk;
  }

  lemma FirstSound(t: RadixTree, k: Str)
    requires t.Wired() && t.trie == Trie(k, map[], {k}) && t.count == 1 && 0 < t.length <= 0x1_0000
    ensures Sound(t)
  {
    hide RadixTree.Wired, Node.Rep, RadixTree.BandOk;
    t.WiredOwned();
  }

  /** Hangs a new leaf of k below n, which is grown first if it is full. */
  method InsertBelow(t: RadixTree, n: Node, k: Str, v: Value) returns (r: Node)
    requires Open(t, n, k)
    modifies t.Repr
    ensures Sound(t) && fresh(t.Repr - old(t.Repr)) && fresh(r) && r.value == v && Added(t, k, r)
    ensures n.full in old(t.trie.inner) && Extends(n.full, k) && t.trie == old(t.trie).Hang(n.full, k)
  {
    hide RadixTree.Wired, Node.Rep, Trie.WF, Open, RadixTree.BandOk, Sound, SameLeaves;
    OpenKeys(t, n, k);
    var m := MakeRoom(t, n, k);
    r := new Node.Leaf(k, v, m);
    SameLeavesUpdate(t.trie.keys, old(t.at), t.at, k, r);
    PutLeaf(t, m, r, k);
  }

  /** Where a leaf of k may be hung: the dummy node, the leaf k already has, or an open inner node with room. */
  ghost predicate InsertPos(t: RadixTree, n: Node, k: Str)
    reads t, t.Repr, n
  {
    if t.root == null then Sound(t) && n == t.dummy && n.tag == Dummy
    else if k in t.trie.keys then Sound(t) && k in t.at && n == t.at[k] && n.tag == Tag.Leaf
    else Open(t, n, k) && IsInner(n.tag) && n.count < MaxSize(n.tag)
  }

  /** insert_leaf */
  method InsertLeaf(t: RadixTree, parent: Node, leaf: Node, k: Str)
    requires InsertPos(t, parent, k) && k !in t.trie.keys && |k| == t.length
    requires leaf !in t.Repr && leaf.bytes !in t.Repr && leaf.children !in t.Repr
    requires leaf.full == leaf.key == k && leaf.tag == Tag.Leaf
    modifies t.Repr, leaf`parent
    ensures Sound(t) && Added(t, k, leaf) && t.Repr == old(t.Repr) + {leaf, leaf.bytes, leaf.children}
    ensures old(t.root) == null ==> t.trie == Trie(k, map[], {k})
    ensures old(t.root) != null ==>
      parent.full in old(t.trie.inner) && Extends(parent.full, k) && t.trie == old(t.trie).Hang(parent.full, k)
  {
    hide RadixTree.Wired, Node.Rep, Trie.WF, Open, RadixTree.BandOk, Sound, SameLeaves;
    InsertPosKind(t, parent, k);
    leaf.parent := parent;
    if parent.tag != Dummy {
      SameLeavesUpdate(t.trie.keys, t.at, t.at, k, leaf);
      PutLeaf(t, parent, leaf, k);
    } else {
      PutRoot(t, leaf, k);
    }
  }

  lemma InsertPosKind(t: RadixTree, n: Node, k: Str)
    requires InsertPos(t, n, k) && k !in t.trie.keys
    ensures n in t.Repr && (n.tag == Dummy <==> t.root == null)
    ensures t.root != null ==> Open(t, n, k) && SameLeaves(t.trie.keys, t.at, t.at)
  {
    hide RadixTree.Wired, Node.Rep, Trie.WF, Open, RadixTree.BandOk, Sound, SameLeaves;
    if t.root == null {
      SoundParts(t);
      OwnsItself(t);
    } else {
      OpenParts(t, n, k);
      OpenKeys(t, n, k);
    }
  }

  lemma InsertPosTag(t: RadixTree, n: Node, k: Str)
    requires InsertPos(t, n, k)
    ensures n.tag == Tag.Leaf <==> k in t.trie.keys
    ensures n.tag == Tag.Leaf ==> Sound(t) && k in t.at && n == t.at[k]
  {
    hide RadixTree.Wired, Node.Rep, Trie.WF, Open, RadixTree.BandOk, Sound;
    if t.root == null {
      SoundParts(t);
      EmptyKeys(t);
    }
  }

  /** The inner node n has just lost the key k; it may have become too small for its layout or one-way. */
  ghost predicate Drained(t: RadixTree, n: Node, k: Str)
    reads t, t.Repr, n
  {
    && t.Wired() && t.root != null && t.Banded({n.full}) && t.count == |t.trie.keys| && t.Live(n)
    && n.full in t.trie.inner && Extends(n.full, k) && |k| == t.length <= 0x1_0000
    && t.trie.Inhabited()
    && (n.tag == Node4 || MinSize(n.tag) <= n.count + 1)
  }

  lemma DrainedParts(t: RadixTree, n: Node, k: Str)
    requires Drained(t, n, k)
    ensures t.Wired() && t.root != null && |k| == t.length && t.Live(n) && n.full in t.trie.inner && Extends(n.full, k)
      && t.length <= 0x1_0000
    ensures n.Rep() && n in t.Repr && IsInner(n.tag) && 1 <= n.count && n.full !in t.trie.keys
    ensures SameLeaves(t.trie.keys, t.at, t.at)
    ensures MinSize(n.tag) <= n.count + 1
  {
    hide RadixTree.Wired, Trie.WF, RadixTree.BandOk, Node.Sorted, Node.Indexed, Node.Direct;
    t.LiveKind(n);
    t.LiveOwned(n);
    KeysLive(t);
    assert t.trie.Branches(n.full, 1);
    assert n.kids.Keys == t.trie.inner[n.full].Keys;
  }

  /** A drained node of a fitting size leaves nothing to fix. */
  lemma DrainedFits(t: RadixTree, n: Node, k: Str)
    requires Drained(t, n, k) && MinSize(n.tag) <= n.count
    ensures Sound(t)
  {
    hide RadixTree.Wired, Trie.WF, Node.Sorted, Node.Indexed, Node.Direct;
    DrainedParts(t, n, k);
    t.LiveKind(n);
    t.WiredOwned();
    forall s | s in t.trie.inner ensures t.BandOk(s) {
    }
  }

  twostate lemma Shrunk(t: RadixTree, new s: Str, new m: Node, new k: Str)
    requires old(s in t.at && t.at[s].full == s && Drained(t, t.at[s], k))
    requires t.Wired() && t.root != null && t.Live(m) && m.full == s
    requires t.trie == old(t.trie) && t.count == old(t.count)
    requires forall u :: u in t.trie.inner && u != s && old(t.BandOk(u)) ==> t.BandOk(u)
    requires RadixTree.Resized(m, false)
    ensures Drained(t, m, k) && MinSize(m.tag) <= m.count
  {
    hide RadixTree.Anchored, RadixTree.LeafOk, RadixTree.KidsOk, RadixTree.PrefixOk, RadixTree.ParentOk, Node.Rep,
      Trie.WF, RadixTree.BandOk, RadixTree.Owned, Trie.Inhabited;
  }

  lemma ContractInhabited(tr: Trie, p: Str, s: Str, c: Str)
    requires tr.Inhabited() && s in tr.inner
    requires s == tr.root || (|p| < |s| && tr.Child(p, s[|p|], s))
    ensures tr.Contract(p, s, c).Inhabited()
  {
    var tr' := tr.Contract(p, s, c);
    forall u | u in tr'.inner ensures tr'.Branches(u, 1) {
      assert tr.Branches(u, 1);
      if s != tr.root && u == p { assert tr'.inner[p].Keys == tr.inner[p].Keys; }
    }
  }

  twostate lemma Folded(t: RadixTree, new s: Str, new p: Str, new c: Str, new k: Str)
    requires old(s in t.at && t.at[s].full == s && Drained(t, t.at[s], k))
    requires s == old(t.trie.root) || (|p| < |s| && old(t.trie).Child(p, s[|p|], s))
    requires t.Wired() && t.root != null && t.trie == old(t.trie).Contract(p, s, c) && t.count == old(t.count)
    requires forall u :: u in t.trie.inner && old(t.BandOk(u)) ==> t.BandOk(u)
    ensures Sound(t)
  {
    hide RadixTree.Anchored, RadixTree.LeafOk, RadixTree.KidsOk, RadixTree.PrefixOk, RadixTree.ParentOk, Node.Rep,
      Trie.WF, RadixTree.BandOk;
    ContractInhabited(old(t.trie), p, s, c);
  }

  lemma UnhangInhabited(tr: Trie, s: Str, k: Str)
    requires tr.Inhabited() && s in tr.inner && tr.Branches(s, 2) && |s| < |k| && k[|s|] in tr.inner[s] && k in tr.keys
    ensures tr.Unhang(s, k).Inhabited() && |tr.Unhang(s, k).keys| == |tr.keys| - 1
  {
    var tr' := tr.Unhang(s, k);
    assert tr'.inner[s].Keys == tr.inner[s].Keys - {k[|s|]};
    forall u | u in tr'.inner ensures tr'.Branches(u, 1) {
      assert tr.Branches(u, 1);
    }
  }

  twostate lemma Drains(t: RadixTree, new s: Str, new k: Str)
    requires old(Sound(t) && t.root != null && s in t.at && t.at[s].full == s && s in t.trie.inner)
    requires k in old(t.trie.keys) && Extends(s, k) && k[|s|] in old(t.trie.inner[s]) && |k| == t.length
    requires old(t.trie.Branches(s, 2))
    requires t.Wired() && t.root != null && t.trie == old(t.trie).Unhang(s, k) && t.count == old(t.count) - 1
    requires s in t.at && t.at[s] == old(t.at[s]) && t.at[s].count == old(t.at[s].count) - 1
    requires forall u :: u in t.trie.inner && u != s && old(t.BandOk(u)) ==> t.BandOk(u)
    ensures Drained(t, t.at[s], k)
  {
    hide RadixTree.Anchored, RadixTree.LeafOk, RadixTree.KidsOk, RadixTree.PrefixOk, RadixTree.ParentOk, Node.Rep,
      Trie.WF;
    UnhangInhabited(old(t.trie), s, k);
  }

  lemma UnhangParts(t: RadixTree, n: Node, k: Str)
    requires Sound(t) && t.root != null && t.Live(n) && n.full in t.trie.inner && k in t.trie.keys && k in t.at
      && t.at[k].parent == n
    ensures t.Wired() && Extends(n.full, k) && k[|n.full|] in t.trie.inner[n.full] && |k| == t.length && t.count > 0
    ensures n.full != k && SameLeaves(t.trie.keys, t.at, t.at)
  {
    hide RadixTree.Wired, Node.Rep, Trie.WF, RadixTree.BandOk, RadixTree.PrefixOk, Sound;
    SoundParts(t);
    t.UnhangReady(n.full, k);
    t.KeySize(k);
    KeysLive(t);
    assert t.trie.keys != {};
  }

  /** Deletes the root leaf, the last one of the tree. */
  method EraseRoot(t: RadixTree)
    requires Sound(t) && t.root != null && t.root.tag == Tag.Leaf
    modifies t.Repr
    ensures Sound(t) && t.root == null && Removed(t, old(t.root.full)) && t.Repr == old(t.Repr)
    ensures t.trie == Trie([], map[], {})
  {
    hide RadixTree.Wired, Node.Rep, Trie.WF, RadixTree.BandOk, Sound;
    SoundParts(t);
    OwnsItself(t);
    t.OnlyLeaf();
    t.UnhangRoot();
    EmptySound(t);
  }

  lemma EmptySound(t: RadixTree)
    requires t.Wired() && t.trie == Trie([], map[], {}) && t.count == 0 && 0 < t.length <= 0x1_0000
    ensures Sound(t)
  {
    hide RadixTree.Wired, Node.Rep, RadixTree.BandOk;
    t.WiredOwned();
  }

  lemma SeekMismatch(t: RadixTree, n: Node, depth: nat, k: Str, i: nat)
    requires Seeking(t, n, depth, k) && i < |n.full| && i < |k| && k[i] != n.full[i]
    ensures k !in t.trie.keys
  {
    hide RadixTree.Wired, Node.Rep, Trie.WF;
  }

  /** The child of n at the byte of k has n as its parent. */
  lemma ChildParent(t: RadixTree, n: Node, b: Byte)
    requires t.Wired() && t.root != null && t.Live(n) && n.full in t.trie.inner && b in n.kids
    ensures t.Live(n.kids[b]) && n.kids[b].parent == n
  {
    hide RadixTree.Wired, Node.Rep, Trie.WF;
    t.LiveKind(n);
    t.LiveChild(n, b);
    t.LinkedAt(n.full, n.kids[b].full);
  }

  lemma AboveIsInner(t: RadixTree, leaf: Node)
    requires Sound(t) && t.root != null && t.Live(leaf) && leaf.tag == Tag.Leaf
    ensures leaf.key == leaf.full && leaf.full in t.trie.keys
    ensures leaf != t.root ==> leaf.parent != null && t.Live(leaf.parent) && leaf.parent.full in t.trie.inner
  {
    hide Node.Rep, Trie.WF, RadixTree.BandOk, RadixTree.KidsOk, RadixTree.PrefixOk, RadixTree.LeafOk;
    t.LiveKind(leaf);
    t.RootLive();
    assert t.ParentOk(leaf.full);
  }

  lemma NextKey(t: RadixTree, k: Str, r: Node)
    requires t.Wired() && t.root != null && IsNext(t.trie.keys, k, r.full) && t.Live(r)
    ensures r.full in t.trie.keys && r.full != k && r == t.at[r.full]
  {
    hide RadixTree.Wired;
    LessIrreflexive(k);
  }

  twostate lemma RemovedParts(t: RadixTree, new k: Str)
    requires Removed(t, k)
    ensures t.trie.keys <= old(t.trie.keys)
  {
  }

  twostate lemma StillThere(t: RadixTree, new s: Str, new k: Str)
    requires Sound(t) && Removed(t, k) && s in old(t.trie.keys) && s != k
    ensures s in t.trie.keys && s in t.at && s in old(t.at) && t.at[s] == old(t.at[s]) && t.root != null
  {
    hide RadixTree.Wired, Node.Rep, Trie.WF, RadixTree.BandOk, Sound;
    SoundParts(t);
    if t.root == null { EmptyKeys(t); }
  }

  /** clear; the dummy node keeps its stale root pointer. */
  method Clear(t: RadixTree)
    requires Sound(t)
    modifies t.Repr
    ensures Sound(t) && t.root == null && t.trie == Trie([], map[], {}) && t.count == 0 && t.Repr == old(t.Repr)
      && Contents(t) == map[]
  {
    hide RadixTree.Wired, Node.Rep, Trie.WF, RadixTree.BandOk, Sound;
    SoundParts(t);
    OwnsItself(t);
    t.Clear();
    EmptySound(t);
  }
}
