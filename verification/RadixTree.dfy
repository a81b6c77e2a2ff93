/** The linked tree shared by both radix trees: nodes, parent and child pointers, the dummy
    node, and the pointer surgery that insertion and erasure are made of. */
module RadixTrees {
  import opened Bytes
  import opened Tries
  import opened Nodes

  /** The buffer holds the first MAX_PREFIX_LENGTH of the prefix bytes of a node named full. */
  ghost predicate StoresPrefix(prefix: seq<Byte>, depth: nat, prefixLength: nat, full: Str) {
    && |prefix| == MAX_PREFIX_LENGTH
    && depth + prefixLength == |full|
    && forall i :: 0 <= i < prefixLength && i < MAX_PREFIX_LENGTH ==> prefix[i] == full[depth + i]
  }

  /** How many bytes of a prefix of length n the buffer holds. */
  function Stored(n: nat): nat {
    if n < MAX_PREFIX_LENGTH then n else MAX_PREFIX_LENGTH
  }

  /** std::copy of src to the front of the buffer dst. */
  function Overwrite(dst: seq<Byte>, src: seq<Byte>): seq<Byte>
    requires |src| <= |dst|
  {
    src + dst[|src|..]
  }

  // The prefix buffers of a split and of its inverse.

  /** The byte at which split_prefix_into_parent branches. */
  function SplitByte(prefix: seq<Byte>, prefixLength: nat, depth: nat, pos: nat, minKey: Str): Byte
    requires |prefix| == MAX_PREFIX_LENGTH && pos < prefixLength && depth + prefixLength <= |minKey|
  {
    if prefixLength < MAX_PREFIX_LENGTH then prefix[pos] else minKey[depth + pos]
  }

  /** The buffer of the new upper node: the bytes before pos. */
  function SplitUpper(prefix: seq<Byte>, prefixLength: nat, pos: nat): seq<Byte>
    requires |prefix| == MAX_PREFIX_LENGTH && pos < prefixLength
  {
    if prefixLength < MAX_PREFIX_LENGTH then Overwrite(BLANK, prefix[..pos]) else Overwrite(BLANK, prefix)
  }

  /** The buffer of the lower node: the bytes after pos, read from a leaf when the buffer cannot hold the prefix. */
  function SplitLower(prefix: seq<Byte>, prefixLength: nat, depth: nat, pos: nat, minKey: Str): seq<Byte>
    requires |prefix| == MAX_PREFIX_LENGTH && pos < prefixLength && depth + prefixLength <= |minKey|
  {
    if prefixLength < MAX_PREFIX_LENGTH then Overwrite(prefix, prefix[pos + 1..])
    else
      var start := depth + pos + 1;
      Overwrite(prefix, minKey[start..start + Stored(prefixLength - (pos + 1))])
  }

  /** The buffer compress_node_into_child leaves in the child: upper prefix, byte, lower prefix. */
  function Joined(upper: seq<Byte>, upperLength: nat, b: Byte, lower: seq<Byte>): seq<Byte>
    requires |upper| == |lower| == MAX_PREFIX_LENGTH
  {
    if upperLength < MAX_PREFIX_LENGTH
    then upper[..upperLength] + [b] + lower[..MAX_PREFIX_LENGTH - upperLength - 1]
    else upper
  }

  /** Splitting stores the right bytes in both nodes, on either side of the buffer size. */
  lemma SplitStores(prefix: seq<Byte>, depth: nat, prefixLength: nat, full: Str, pos: nat, minKey: Str)
    requires StoresPrefix(prefix, depth, prefixLength, full) && pos < prefixLength && full <= minKey
    ensures SplitByte(prefix, prefixLength, depth, pos, minKey) == full[depth + pos]
    ensures StoresPrefix(SplitUpper(prefix, prefixLength, pos), depth, pos, full[..depth + pos])
    ensures StoresPrefix(SplitLower(prefix, prefixLength, depth, pos, minKey),
                         depth + pos + 1, prefixLength - (pos + 1), full)
  {
    assert full[depth + pos] == minKey[depth + pos];
    SplitStoresUpper(prefix, depth, prefixLength, full, pos);
    SplitStoresLower(prefix, depth, prefixLength, full, pos, minKey);
  }

  lemma SplitStoresUpper(prefix: seq<Byte>, depth: nat, prefixLength: nat, full: Str, pos: nat)
    requires StoresPrefix(prefix, depth, prefixLength, full) && pos < prefixLength
    ensures StoresPrefix(SplitUpper(prefix, prefixLength, pos), depth, pos, full[..depth + pos])
  {
  }

  lemma SplitStoresLower(prefix: seq<Byte>, depth: nat, prefixLength: nat, full: Str, pos: nat, minKey: Str)
    requires StoresPrefix(prefix, depth, prefixLength, full) && pos < prefixLength && full <= minKey
    ensures StoresPrefix(SplitLower(prefix, prefixLength, depth, pos, minKey),
                         depth + pos + 1, prefixLength - (pos + 1), full)
  {
    assert forall i :: 0 <= i < |full| ==> full[i] == minKey[i];
  }

  /** Joining stores the right bytes in the child. */
  lemma JoinStores(upper: seq<Byte>, depth: nat, n: nat, t: Str, lower: seq<Byte>, m: nat, full: Str)
    requires StoresPrefix(upper, depth, n, t) && Extends(t, full)
    requires StoresPrefix(lower, |t| + 1, m, full)
    ensures StoresPrefix(Joined(upper, n, full[|t|], lower), depth, n + 1 + m, full)
  {
    var joined := Joined(upper, n, full[|t|], lower);
    forall i | 0 <= i < n + 1 + m && i < MAX_PREFIX_LENGTH ensures joined[i] == full[depth + i] {
      if i < n {
        assert joined[i] == upper[i] && full[depth + i] == t[depth + i];
      } else if i > n {
        assert joined[i] == lower[i - n - 1];
      }
    }
  }

  /** Two buffers that store the same prefix agree on its meaningful bytes. */
  lemma StoresUnique(p: seq<Byte>, q: seq<Byte>, depth: nat, prefixLength: nat, full: Str)
    requires StoresPrefix(p, depth, prefixLength, full) && StoresPrefix(q, depth, prefixLength, full)
    ensures p[..Stored(prefixLength)] == q[..Stored(prefixLength)]
  {
  }

  /** Compressing the node a split has made undoes the split: the child's depth, prefix length
      and meaningful prefix bytes are restored, for every prefix length and position. */
  lemma SplitThenCompress(prefix: seq<Byte>, depth: nat, prefixLength: nat, full: Str, pos: nat, minKey: Str)
    requires StoresPrefix(prefix, depth, prefixLength, full) && pos < prefixLength && full <= minKey
    ensures
      var upper := SplitUpper(prefix, prefixLength, pos);
      var b := SplitByte(prefix, prefixLength, depth, pos, minKey);
      var lower := SplitLower(prefix, prefixLength, depth, pos, minKey);
      pos + 1 + (prefixLength - (pos + 1)) == prefixLength &&
      Joined(upper, pos, b, lower)[..Stored(prefixLength)] == prefix[..Stored(prefixLength)]
  {
    var t := full[..depth + pos];
    SplitStores(prefix, depth, prefixLength, full, pos, minKey);
    var upper := SplitUpper(prefix, prefixLength, pos);
    var lower := SplitLower(prefix, prefixLength, depth, pos, minKey);
    JoinStores(upper, depth, pos, t, lower, prefixLength - (pos + 1), full);
    StoresUnique(Joined(upper, pos, full[|t|], lower), prefix, depth, prefixLength, full);
  }

  class RadixTree {
    /** The size of a transformed key. */
    const length: nat
    const dummy: Node
    /** The end marker: the leaf of the dummy node. */
    const endLeaf: Node
    var root: Node?
    var count: nat

    /** What the pointers mean. */
    ghost var trie: Trie
    /** The live nodes by name. */
    ghost var at: map<Str, Node>
    ghost var Repr: set<object>

    /** Live nodes carry their name and share no storage. */
    ghost predicate Owned()
      reads `at, `Repr
    {
      && this in Repr && dummy in Repr && dummy.bytes in Repr && dummy.children in Repr
      && endLeaf in Repr && dummy != endLeaf
      && (forall s :: s in at ==>
            && at[s] in Repr && at[s].bytes in Repr && at[s].children in Repr
            && at[s].full == s && at[s] != dummy && at[s] != endLeaf
            && at[s].bytes != dummy.bytes && at[s].children != dummy.children)
      && (forall s, t :: s in at && t in at && s != t ==>
            at[s].bytes != at[t].bytes && at[s].children != at[t].children)
    }

    ghost predicate LeafOk(k: Str)
      reads `at
    {
      k in at && at[k].tag == Leaf && at[k].key == k
    }

    /** The layout of inner node s points to its children, byte by byte. */
    ghost predicate KidsOk(s: Str)
      reads `at, `trie, Repr
      requires Owned()
    {
      && s in at && s in trie.inner && at[s].Rep()
      && at[s].kids.Keys == trie.inner[s].Keys
      && forall b :: b in trie.inner[s] ==> trie.inner[s][b] in at && at[s].kids[b] == at[trie.inner[s][b]]
    }

    ghost predicate PrefixOk(s: Str)
      reads `at, Repr
      requires Owned()
    {
      s in at && StoresPrefix(at[s].prefix, at[s].depth, at[s].prefixLength, s)
    }

    /** The parent pointer of node s leads to the node it is a child of. */
    ghost predicate ParentOk(s: Str)
      reads `at, `trie, Repr
      requires Owned()
    {
      && s in at && at[s].parent != null
      && (s == trie.root ==> at[s].parent == dummy && (s in trie.inner ==> at[s].depth == 0))
      && (s != trie.root ==>
            var p := at[s].parent.full;
            && p in trie.inner && p in at && at[s].parent == at[p]
            && |p| < |s| && trie.Child(p, s[|p|], s)
            && (s in trie.inner ==> at[s].depth == |p| + 1))
    }

    ghost predicate Anchored()
      reads `at, `trie, `root, `Repr, Repr
      requires Owned()
    {
      && dummy.tag == Dummy && dummy.parent == dummy && endLeaf.tag == Leaf && endLeaf.parent == dummy
      && (root == null ==> trie.keys == {} && trie.inner == map[])
      && (root != null ==> trie.WF(length) && trie.root in at && root == at[trie.root] && dummy.root == root)
    }

    /** Pointers and trie agree. */
    ghost predicate Wired()
      reads `at, `trie, `root, `Repr, Repr
    {
      && Owned() && Anchored()
      && at.Keys == trie.Nodes()
      && (forall k :: k in trie.keys ==> LeafOk(k))
      && (forall s :: s in trie.inner ==> KidsOk(s))
      && (forall s :: s in trie.inner ==> PrefixOk(s))
      && (forall s :: s in at ==> ParentOk(s))
    }

    /** Every inner node outside holes has a layout that fits its size. */
    ghost predicate Banded(holes: set<Str>)
      reads `at, `trie, Repr
      requires Owned()
    {
      forall s :: s in trie.inner && s !in holes ==> BandOk(s)
    }

    ghost predicate BandOk(s: Str)
      reads `at, Repr
      requires Owned()
    {
      s in at && (at[s].tag == Node4 || MinSize(at[s].tag) <= at[s].count)
    }

    constructor (length: nat)
      ensures Wired() && Banded({}) && fresh(Repr) && this.length == length
      ensures root == null && count == 0 && trie.keys == {} && dummy.root == null
    {
      var d := new Node.DummyNode();
      var e := new Node.BaseLeaf(d);
      this.length, dummy, endLeaf, root, count := length, d, e, null, 0;
      trie, at, Repr := Trie([], map[], {}), map[], {this, d, d.bytes, d.children, e};
    }

    method UpdateChildPtr(p: Node, c: Node, k: Str)
      requires p.tag == Dummy ==> p == dummy
      requires p.tag != Dummy ==> p.Rep() && p.depth + p.prefixLength < |k|
      modifies this`root, dummy`root, p`kids, p.children
      ensures p.tag == Dummy ==> root == c && dummy.root == c && p.kids == old(p.kids) && p.children[..] == old(p.children[..])
      ensures p.tag != Dummy ==> root == old(root) && dummy.root == old(dummy.root) && p.Rep()
      ensures p.tag != Dummy ==> var b := k[p.depth + p.prefixLength];
        p.kids == if b in old(p.kids) then old(p.kids)[b := c] else old(p.kids)
    {
      hide Node.Rep;
      if p.tag == Dummy {
        root := c;
        dummy.root := c;
      } else {
        p.UpdateChild(k[p.depth + p.prefixLength], c);
      }
    }
  
    // ---- Steps between two states of the tree ----

    twostate predicate SameHeader(n: Node)
      reads n
    {
      n.depth == old(n.depth) && n.prefixLength == old(n.prefixLength) && n.prefix == old(n.prefix)
    }

    twostate predicate SameKids(n: Node)
      reads n, n.bytes, n.children
    {
      n.kids == old(n.kids) && n.count == old(n.count) && (old(n.Rep()) ==> n.Rep())
    }

    /** The pointer of the parent p (or the root pointer) at the child named s now leads to m. */
    twostate predicate Redirected(new s: Str, p: Node, new m: Node)
      reads *
    {
      if s == old(trie.root) then
        root == m && dummy.root == m
      else
        && root == old(root) && dummy.root == old(dummy.root)
        && |p.full| < |s| && p.Rep() && p.kids == old(p.kids)[s[|p.full|] := m]
    }

    /** m copies the header, the children and the parent pointer of the node n. */
    twostate predicate Copied(n: Node, new m: Node)
      reads *
    {
      && m.full == n.full && m.Rep() && m.kids == old(n.kids) && m.parent == old(n.parent)
      && m.depth == old(n.depth) && m.prefixLength == old(n.prefixLength) && m.prefix == old(n.prefix)
      && (forall b :: b in m.kids ==> m.kids[b].parent == m)
    }

    /** Live nodes other than s keep everything but what replacing s by m changes. */
    twostate predicate OthersKept(new s: Str, new m: Node)
      reads *
    {
      HeadersKept(s, m) && LayoutsKept(s, m)
    }

    twostate predicate HeadersKept(new s: Str, new m: Node)
      reads *
    {
      && dummy.parent == old(dummy.parent) && endLeaf.parent == old(endLeaf.parent)
      && forall t :: t in old(at) && t != s ==>
            && SameHeader(old(at[t]))
            && (old(at[t]) !in m.kids.Values ==> old(at[t]).parent == old(at[t].parent))
    }

    twostate predicate LayoutsKept(new s: Str, new m: Node)
      reads *
    {
      forall t :: t in old(at) && t != s && old(at[t]) != m.parent ==> SameKids(old(at[t]))
    }

    /** m is a new live node under the name s. */
    twostate predicate Enrolled(new s: Str, new m: Node)
      reads this
    {
      && m !in old(Repr) && m.bytes !in old(Repr) && m.children !in old(Repr) && m.full == s
      && at == old(at)[s := m] && Repr == old(Repr) + {m, m.bytes, m.children}
    }

    twostate lemma EnrolledOwned(new s: Str, new m: Node)
      requires old(Owned()) && Enrolled(s, m)
      ensures Owned()
    {
    }

    // ---- A new layout for a node: grow and shrink ----

    /** No other node has the child s. */
    ghost predicate OnlyParent(p: Str, s: Str)
      reads `trie
    {
      forall t, b :: t in trie.inner && b in trie.inner[t] && trie.inner[t][b] == s ==>
        s != trie.root && t == p && |p| < |s| && b == s[|p|]
    }

    /** Node s hangs in exactly one place, below its parent or at the root. */
    ghost predicate Placed(s: Str)
      reads `at, `trie, at.Values
      requires s in at
    {
      var p := at[s].parent;
      && p != null && OnlyParent(p.full, s)
      && (s in trie.inner ==> s !in trie.keys && forall b :: b in trie.inner[s] ==> trie.inner[s][b] != s)
      && (forall u :: u in at && at[u] == p ==> s != trie.root && u == p.full)
      && (s == trie.root ==> p == dummy)
      && (s != trie.root ==>
            && p.full in trie.inner && |p.full| < |s| && trie.Child(p.full, s[|p.full|], s)
            && p.full in at && at[p.full] == p)
    }

    lemma WiredPlaced(s: Str)
      requires Wired() && root != null && s in at
      ensures Placed(s)
    {
      assert ParentOk(s);
      assert s in trie.inner ==> forall b :: b in trie.inner[s] ==> trie.ChildOk(s, b);
      var p := at[s].parent.full;
      forall t, b | t in trie.inner && b in trie.inner[t] && trie.inner[t][b] == s
        ensures s != trie.root && t == p && |p| < |s| && b == s[|p|]
      {
        assert trie.ChildOk(t, b);
        assert s != trie.root;
        ParentUnique(trie, length, t, b, p, s[|p|], s);
      }
    }

    /** The child pointers of s and the parent pointers at s agree. */
    ghost predicate Linked(s: Str)
      reads `at, `trie, at.Values
      requires s in at
    {
      forall t :: t in at ==>
        && (at[t] in at[s].kids.Values <==> t != trie.root && at[t].parent == at[s])
        && (at[t] in at[s].kids.Values <==> |s| < |t| && trie.Child(s, t[|s|], t))
    }

    lemma LinkedAt(s: Str, t: Str)
      requires Wired() && root != null && s in trie.inner && t in at
      ensures at[t] in at[s].kids.Values <==> t != trie.root && at[t].parent == at[s]
      ensures at[t] in at[s].kids.Values <==> |s| < |t| && trie.Child(s, t[|s|], t)
    {
      assert KidsOk(s) && ParentOk(t);
      if at[t] in at[s].kids.Values {
        var b :| b in at[s].kids && at[s].kids[b] == at[t];
        assert trie.ChildOk(s, b) && trie.inner[s][b] == t;
        var p := at[t].parent.full;
        ParentUnique(trie, length, s, b, p, t[|p|], t);
      }
      if t != trie.root && at[t].parent == at[s] {
        assert at[s].kids[t[|s|]] == at[t];
      }
      if |s| < |t| && trie.Child(s, t[|s|], t) {
        assert at[s].kids[t[|s|]] == at[t];
      }
    }

    lemma WiredLinked(s: Str)
      requires Wired() && root != null && s in trie.inner
      ensures s in at && Linked(s)
    {
      forall t | t in at
        ensures at[t] in at[s].kids.Values <==> t != trie.root && at[t].parent == at[s]
        ensures at[t] in at[s].kids.Values <==> |s| < |t| && trie.Child(s, t[|s|], t)
      {
        LinkedAt(s, t);
      }
    }

    /** Node t kept its layout, and its children kept their names. */
    twostate lemma KidsKept(new t: Str)
      requires old(Owned()) && Owned() && old(KidsOk(t))
      requires t in at && at[t] == old(at[t]) && SameKids(at[t])
      requires t in trie.inner && trie.inner[t] == old(trie.inner[t])
      requires forall b :: b in trie.inner[t] ==> trie.inner[t][b] in at && at[trie.inner[t][b]] == old(at[trie.inner[t][b]])
      ensures KidsOk(t)
    {
    }

    /** Node t has the child c at byte b now, and the rest is kept. */
    twostate lemma KidsSet(new t: Str, new b: Byte, new c: Str)
      requires old(Owned()) && Owned() && old(KidsOk(t))
      requires t in at && at[t] == old(at[t]) && c in at && at[t].Rep() && at[t].kids == old(at[t].kids)[b := at[c]]
      requires t in trie.inner && trie.inner[t] == old(trie.inner[t])[b := c]
      requires forall x :: x in old(trie.inner[t]) && x != b ==>
        old(trie.inner[t][x]) in at && at[old(trie.inner[t][x])] == old(at[trie.inner[t][x]])
      ensures KidsOk(t)
    {
    }

    /** Node t lost its child at byte b, and the rest is kept. */
    twostate lemma KidsUnset(new t: Str, new b: Byte)
      requires old(Owned()) && Owned() && old(KidsOk(t))
      requires t in at && at[t] == old(at[t]) && at[t].Rep() && at[t].kids == old(at[t].kids) - {b}
      requires t in trie.inner && trie.inner[t] == old(trie.inner[t]) - {b}
      requires forall x :: x in old(trie.inner[t]) && x != b ==>
        old(trie.inner[t][x]) in at && at[old(trie.inner[t][x])] == old(at[trie.inner[t][x]])
      ensures KidsOk(t)
    {
    }

    // ---- A new layout for a node: grow and shrink ----

    twostate lemma ReplacedKidsAt(new s: Str, new m: Node)
      requires old(Owned()) && Owned() && Enrolled(s, m) && trie == old(trie) && s in old(at)
      requires old(KidsOk(s)) && Copied(old(at[s]), m)
      requires forall b :: b in trie.inner[s] ==> trie.inner[s][b] != s
      ensures KidsOk(s)
    {
      hide Node.Rep;
    }

    twostate lemma ReplacedKidsElsewhere(new s: Str, new m: Node, new t: Str)
      requires old(Owned()) && Owned() && Enrolled(s, m) && trie == old(trie) && s in old(at)
      requires t in trie.inner && old(KidsOk(t)) && t != s && SameKids(old(at[t]))
      requires forall b :: b in trie.inner[t] ==> trie.inner[t][b] != s
      ensures KidsOk(t)
    {
      KidsKept(t);
    }

    twostate lemma ReplacedKidsAbove(new s: Str, new m: Node, new p: Str)
      requires old(Owned()) && Owned() && Enrolled(s, m) && trie == old(trie) && s in old(at)
      requires p in trie.inner && old(KidsOk(p)) && OnlyParent(p, s) && p != s
      requires |p| < |s| && trie.Child(p, s[|p|], s) && s != trie.root && Redirected(s, old(at[p]), m)
      ensures KidsOk(p)
    {
      hide Node.Rep;
    }

    twostate lemma ReplacedKidsFor(new s: Str, new m: Node, new t: Str)
      requires old(Owned()) && Owned() && Enrolled(s, m) && trie == old(trie) && s in old(at) && s in trie.inner
      requires t in trie.inner && old(KidsOk(t)) && old(Placed(s))
      requires Copied(old(at[s]), m) && OthersKept(s, m) && Redirected(s, old(at[s].parent), m)
      ensures KidsOk(t)
    {
      hide Node.Rep;
      if t == s {
        ReplacedKidsAt(s, m);
      } else if s != trie.root && t == old(at[s].parent.full) {
        ReplacedKidsAbove(s, m, t);
      } else {
        ReplacedKidsElsewhere(s, m, t);
      }
    }

    twostate lemma ReplacedParentFor(new s: Str, new m: Node, new t: Str)
      requires old(Owned()) && Owned() && Enrolled(s, m) && trie == old(trie) && s in old(at) && s in trie.inner
      requires t in at && old(ParentOk(t)) && old(Placed(s)) && old(Linked(s))
      requires Copied(old(at[s]), m) && OthersKept(s, m)
      ensures ParentOk(t)
    {
      hide Node.Rep;
      if t == s {
        ReplacedParentAt(s, m);
      } else if old(at[t]) in m.kids.Values {
        ReplacedParentBelow(s, m, t);
      } else {
        ReplacedParentElsewhere(s, m, t);
      }
    }

    twostate lemma ReplacedParentAt(new s: Str, new m: Node)
      requires old(Owned()) && Owned() && Enrolled(s, m) && trie == old(trie) && s in old(at) && s in trie.inner
      requires old(ParentOk(s)) && Copied(old(at[s]), m)
      ensures ParentOk(s)
    {
      hide Node.Rep;
    }

    twostate lemma ReplacedParentBelow(new s: Str, new m: Node, new t: Str)
      requires old(Owned()) && Owned() && Enrolled(s, m) && trie == old(trie) && s in old(at) && s in trie.inner
      requires t in old(at) && t != s && old(ParentOk(t)) && SameHeader(old(at[t]))
      requires old(at[t]).parent == m && |s| < |t| && trie.Child(s, t[|s|], t) && t != trie.root
      requires old(at[t].parent) == old(at[s])
      ensures ParentOk(t)
    {
      hide Node.Rep;
    }

    twostate lemma ReplacedParentElsewhere(new s: Str, new m: Node, new t: Str)
      requires old(Owned()) && Owned() && Enrolled(s, m) && trie == old(trie) && s in old(at)
      requires t in old(at) && t != s && old(ParentOk(t)) && SameHeader(old(at[t]))
      requires old(at[t]).parent == old(at[t].parent)
      requires t == trie.root || old(at[t].parent) != old(at[s])
      ensures ParentOk(t)
    {
      hide Node.Rep;
    }

    /** Everything that replacing node s by m does. */
    twostate predicate Replaced(new s: Str, new m: Node)
      reads *
    {
      && s in old(trie.inner) && s in old(at) && old(at[s].parent) != null && trie == old(trie)
      && Enrolled(s, m) && Copied(old(at[s]), m) && OthersKept(s, m) && Redirected(s, old(at[s].parent), m)
    }

    twostate lemma ReplacedPrefix(new s: Str, new m: Node, new t: Str)
      requires old(Owned()) && Owned() && Enrolled(s, m) && s in old(at) && t in old(at) && old(PrefixOk(t))
      requires Copied(old(at[s]), m) && OthersKept(s, m)
      ensures PrefixOk(t)
    {
      hide Node.Rep;
    }

    twostate lemma ReplacedBand(new s: Str, new m: Node, new t: Str)
      requires old(Owned()) && Owned() && Enrolled(s, m) && s in old(at) && t in old(at) && t != s && old(BandOk(t))
      requires OthersKept(s, m) && old(Placed(s)) && Redirected(s, old(at[s].parent), m) && m.parent == old(at[s].parent)
      requires t in trie.inner && trie == old(trie) && old(KidsOk(t))
      ensures BandOk(t)
    {
    }

    twostate lemma ReplacedInner(new s: Str, new m: Node)
      requires old(Owned()) && Owned() && Replaced(s, m)
      requires old(Placed(s))
      requires forall t :: t in trie.inner ==> old(KidsOk(t)) && old(PrefixOk(t))
      ensures forall t :: t in trie.inner ==> KidsOk(t) && PrefixOk(t) && (t != s && old(BandOk(t)) ==> BandOk(t))
    {
      hide Node.Rep, PrefixOk, BandOk;
      forall t | t in trie.inner ensures KidsOk(t) && PrefixOk(t) && (t != s && old(BandOk(t)) ==> BandOk(t)) {
        ReplacedKidsFor(s, m, t);
        ReplacedPrefix(s, m, t);
        if t != s && old(BandOk(t)) { ReplacedBand(s, m, t); }
      }
    }

    twostate lemma ReplacedParents(new s: Str, new m: Node)
      requires old(Owned()) && Owned() && Replaced(s, m)
      requires old(Placed(s)) && old(Linked(s))
      requires forall t :: t in at ==> t in old(at) && old(ParentOk(t))
      ensures forall t :: t in at ==> ParentOk(t)
    {
      hide Node.Rep, ParentOk;
      forall t | t in at ensures ParentOk(t) {
        ReplacedParentFor(s, m, t);
      }
    }

    twostate lemma ReplacedLeaves(new s: Str, new m: Node)
      requires old(Owned()) && Owned() && Enrolled(s, m) && trie == old(trie) && s !in trie.keys
      requires old(at.Keys == trie.Nodes()) && s in old(at)
      requires forall k :: k in trie.keys ==> old(LeafOk(k))
      ensures forall k :: k in trie.keys ==> LeafOk(k)
      ensures at.Keys == trie.Nodes()
    {
    }

    twostate lemma ReplacedAnchored(new s: Str, new m: Node)
      requires old(Owned()) && Owned() && Replaced(s, m) && old(root) != null
      requires old(Anchored())
      ensures Anchored() && root != null
    {
      hide Node.Rep, Trie.WF;
    }

    twostate lemma ReplacedWired(new s: Str, new m: Node)
      requires old(Wired()) && old(root) != null && Replaced(s, m)
      requires old(Placed(s)) && old(Linked(s))
      ensures Wired() && root != null
      ensures forall t :: t in trie.inner && t != s && old(BandOk(t)) ==> BandOk(t)
    {
      hide Node.Rep, ParentOk, KidsOk, PrefixOk, LeafOk, BandOk, Linked, Trie.WF, Copied, OthersKept, Redirected, Anchored;
      EnrolledOwned(s, m);
      ReplacedAnchored(s, m);
      ReplacedLeaves(s, m);
      ReplacedInner(s, m);
      ReplacedParents(s, m);
    }

    method Grow(n: Node) returns (m: Node)
      requires n.Rep() && n.tag != Node256 && n.count == MaxSize(n.tag)
      modifies n.kids.Values`parent
      ensures fresh(m) && fresh(m.bytes) && fresh(m.children) && Copied(n, m)
      ensures m.tag == (match n.tag case Node4 => Node16 case Node16 => Node48 case _ => Node256) && m.count == n.count
    {
      if n.tag == Node4 {
        m := new Node.GrowTo16(n);
      } else if n.tag == Node16 {
        m := new Node.GrowTo48(n);
      } else {
        m := new Node.GrowTo256(n);
      }
    }

    /** Shrinks an underfull node that is not a Node4. */
    method Shrink(n: Node) returns (m: Node)
      requires n.Rep() && n.tag != Node4 && n.count == MinSize(n.tag) - 1
      modifies n.kids.Values`parent
      ensures fresh(m) && fresh(m.bytes) && fresh(m.children) && Copied(n, m)
      ensures m.tag == (match n.tag case Node16 => Node4 case Node48 => Node16 case _ => Node48) && m.count == n.count
    {
      if n.tag == Node16 {
        m := new Node.ShrinkTo4(n);
      } else if n.tag == Node48 {
        m := new Node.ShrinkTo16(n);
      } else {
        m := new Node.ShrinkTo48(n);
      }
    }

    lemma WiredAt(s: Str)
      requires Wired() && s in at
      ensures ParentOk(s)
      ensures s in trie.inner ==> KidsOk(s) && PrefixOk(s)
      ensures s in trie.keys ==> LeafOk(s)
    {
      hide Node.Rep, Trie.WF, KidsOk, PrefixOk, LeafOk, ParentOk, Owned, Anchored;
    }

    /** What UpdateChildPtr relies on when it redirects the pointer to node s. */
    ghost predicate Ready(s: Str)
      reads `at, `trie, `Repr, Repr
      requires s in at && at[s] in Repr
    {
      var p := at[s].parent;
      && p != null && p in Repr && p.bytes in Repr && p.children in Repr
      && (s == trie.root ==> p == dummy && p.tag == Dummy)
      && (s != trie.root ==> p.Rep() && p.tag != Dummy && |p.full| < |s| && p.depth + p.prefixLength == |p.full| && s[|p.full|] in p.kids)
    }

    lemma ParentReadyAt(s: Str)
      requires Owned() && ParentOk(s) && Anchored()
      requires s != trie.root ==> KidsOk(at[s].parent.full) && PrefixOk(at[s].parent.full)
      ensures Ready(s)
    {
    }

    lemma ParentIn(s: Str)
      requires Owned() && ParentOk(s) && s != trie.root
      ensures at[s].parent != null && at[s].parent.full in at && at[s].parent.full in trie.inner
    {
    }

    lemma ParentReady(s: Str)
      requires Wired() && root != null && s in at
      ensures Ready(s)
    {
      hide Node.Rep, Trie.WF, KidsOk, PrefixOk, LeafOk, ParentOk, Anchored;
      WiredAt(s);
      if s != trie.root {
        ParentIn(s);
        WiredAt(at[s].parent.full);
      }
      ParentReadyAt(s);
    }

    lemma InnerReady(s: Str)
      requires Wired() && s in trie.inner
      ensures s in at && at[s] in Repr && at[s].Rep() && at[s].full == s
      ensures at[s].bytes in Repr && at[s].children in Repr
      ensures forall c :: c in at[s].kids.Values ==> c in Repr && c != dummy && c != endLeaf
    {
      hide Node.Rep, Trie.WF, PrefixOk, LeafOk, ParentOk, Anchored;
      assert KidsOk(s);
    }

    lemma WiredOwned()
      requires Wired()
      ensures Owned() && Anchored() && this in Repr && dummy in Repr
    {
      hide Node.Rep, Trie.WF, LeafOk, ParentOk, PrefixOk, KidsOk, Anchored;
    }

    /** A full node that can grow, or an underfull one that can shrink to a smaller layout. */
    static ghost predicate Resizable(n: Node, larger: bool)
      reads n
    {
      IsInner(n.tag) &&
      if larger then n.tag != Node256 && n.count == MaxSize(n.tag) else n.tag != Node4 && n.count == MinSize(n.tag) - 1
    }

    /** One short of fitting the layout after growing, exactly filling it after shrinking. */
    static ghost predicate Resized(m: Node, larger: bool)
      reads m
    {
      if larger then m.count + 1 == MinSize(m.tag) else m.count == MaxSize(m.tag)
    }

    /** grow(n) or shrink(n), then update_child_ptr on the parent p that the new node inherits. */
    method ResizeAndRelink(n: Node, p: Node, k: Str, larger: bool) returns (m: Node)
      requires n.Rep() && n.parent == p
      requires Resizable(n, larger)
      requires p.tag == Dummy ==> p == dummy
      requires p.tag != Dummy ==> p.Rep() && p.depth + p.prefixLength == |p.full| < |k|
      modifies n.kids.Values`parent, this`root, dummy`root, p`kids, p.children
      ensures fresh(m) && fresh(m.bytes) && fresh(m.children) && Copied(n, m)
      ensures Resized(m, larger)
      ensures p.tag == Dummy ==> root == m && dummy.root == m && p.kids == old(p.kids) && p.children[..] == old(p.children[..])
      ensures p.tag != Dummy ==> root == old(root) && dummy.root == old(dummy.root) && p.Rep()
      ensures p.tag != Dummy ==> var b := k[|p.full|]; p.kids == if b in old(p.kids) then old(p.kids)[b := m] else old(p.kids)
    {
      hide Node.Rep;
      if larger {
        m := Grow(n);
      } else {
        m := Shrink(n);
      }
      UpdateChildPtr(m.parent, m, k);
    }

    /** The same, with the new node enrolled among the live ones. */
    method ResizeAndEnrol(n: Node, p: Node, k: Str, larger: bool) returns (m: Node)
      requires n.Rep() && n.parent == p && Resizable(n, larger)
      requires p.tag == Dummy ==> p == dummy
      requires p.tag != Dummy ==> p.Rep() && p.depth + p.prefixLength == |p.full| < |k|
      modifies n.kids.Values`parent, this`root, dummy`root, p`kids, p.children, this`at, this`Repr
      ensures fresh(m) && fresh(m.bytes) && fresh(m.children) && Copied(n, m) && Resized(m, larger)
      ensures m.kids == old(n.kids) && m.parent == p
      ensures at == old(at)[n.full := m] && Repr == old(Repr) + {m, m.bytes, m.children}
      ensures p.tag == Dummy ==> root == m && dummy.root == m
      ensures p.tag != Dummy ==> root == old(root) && dummy.root == old(dummy.root) && p.Rep()
      ensures p.tag != Dummy ==> var b := k[|p.full|]; p.kids == if b in old(p.kids) then old(p.kids)[b := m] else old(p.kids)
    {
      hide Node.Rep, Resizable;
      m := ResizeAndRelink(n, p, k, larger);
      at := at[n.full := m];
      Repr := Repr + {m, m.bytes, m.children};
    }

    method ResizeHeaders(n: Node, p: Node, k: Str, larger: bool) returns (m: Node)
      requires n.Rep() && n.parent == p
      requires Resizable(n, larger)
      requires p.tag == Dummy ==> p == dummy
      requires p.tag != Dummy ==> p.Rep() && p.depth + p.prefixLength == |p.full| < |k|
      requires Owned() && (p == dummy || (p.full in at && at[p.full] == p))
      requires dummy !in n.kids.Values && endLeaf !in n.kids.Values
      modifies n.kids.Values`parent, this`root, dummy`root, p`kids, p.children, this`at, this`Repr
      ensures fresh(m) && fresh(m.bytes) && fresh(m.children) && Copied(n, m)
      ensures at == old(at)[n.full := m] && Repr == old(Repr) + {m, m.bytes, m.children}
      ensures Resized(m, larger)
      ensures p.tag == Dummy ==> root == m && dummy.root == m
      ensures p.tag != Dummy ==> root == old(root) && dummy.root == old(dummy.root) && p.Rep()
      ensures p.tag != Dummy ==> var b := k[|p.full|]; p.kids == if b in old(p.kids) then old(p.kids)[b := m] else old(p.kids)
      ensures m.kids == old(n.kids) && m.parent == p
      ensures HeadersKept(n.full, m)
    {
      hide Node.Rep, StoresPrefix, Resizable, Resized, Copied;
      m := ResizeAndEnrol(n, p, k, larger);
    }

    method ResizeStep(n: Node, p: Node, k: Str, larger: bool) returns (m: Node)
      requires n.Rep() && n.parent == p
      requires Resizable(n, larger)
      requires p.tag == Dummy ==> p == dummy
      requires p.tag != Dummy ==> p.Rep() && p.depth + p.prefixLength == |p.full| < |k|
      requires Owned() && (p == dummy || (p.full in at && at[p.full] == p))
      requires dummy !in n.kids.Values && endLeaf !in n.kids.Values
      modifies n.kids.Values`parent, this`root, dummy`root, p`kids, p.children, this`at, this`Repr
      ensures fresh(m) && fresh(m.bytes) && fresh(m.children) && Copied(n, m)
      ensures at == old(at)[n.full := m] && Repr == old(Repr) + {m, m.bytes, m.children}
      ensures Resized(m, larger)
      ensures p.tag == Dummy ==> root == m && dummy.root == m
      ensures p.tag != Dummy ==> root == old(root) && dummy.root == old(dummy.root) && p.Rep()
      ensures p.tag != Dummy ==> var b := k[|p.full|]; p.kids == if b in old(p.kids) then old(p.kids)[b := m] else old(p.kids)
      ensures OthersKept(n.full, m)
    {
      hide Node.Rep, StoresPrefix, Resizable, Resized, Copied, HeadersKept;
      m := ResizeHeaders(n, p, k, larger);
    }

    /** Gives node n a layout of the next larger or smaller size; the trie stays the same. */
    method Resize(n: Node, k: Str, larger: bool) returns (m: Node)
      requires Wired() && root != null && n.full in trie.inner && at[n.full] == n && Extends(n.full, k)
      requires Resizable(n, larger)
      modifies Repr
      ensures Wired() && root != null && fresh(Repr - old(Repr))
      ensures trie == old(trie) && at == old(at)[n.full := m] && m.full == n.full && count == old(count)
      ensures Resized(m, larger)
      ensures forall s :: s in trie.inner && s != n.full && old(BandOk(s)) ==> BandOk(s)
    {
      hide Node.Rep, Trie.WF, LeafOk, ParentOk, PrefixOk, KidsOk, Anchored, Linked, BandOk, Wired, Owned, OthersKept,
        Resizable, Resized;
      ghost var s := n.full;
      var p := n.parent;
      InnerReady(s);
      WiredPlaced(s);
      WiredLinked(s);
      ParentReady(s);
      WiredOwned();
      m := ResizeStep(n, p, k, larger);
      ReplacedWired(s, m);
    }

    // ---- A new leaf below an inner node ----

    /** Node n keeps its header, its parent and its layout. */
    twostate predicate Kept(n: Node)
      reads n, n.bytes, n.children
    {
      SameHeader(n) && SameKids(n) && n.parent == old(n.parent)
    }

    /** Every live node outside xs is kept. */
    twostate predicate KeptBut(new xs: set<Str>)
      reads *
    {
      && dummy.parent == old(dummy.parent) && endLeaf.parent == old(endLeaf.parent)
      && forall t :: t in old(at) && t !in xs ==> Kept(old(at[t]))
    }

    /** The leaf of k has been hung below the node n named s. */
    twostate predicate Hung(new s: Str, new k: Str, new leaf: Node)
      reads *
    {
      HungAt(s, k, leaf) && KeptBut({s})
    }

    twostate predicate HungAt(new s: Str, new k: Str, new leaf: Node)
      reads *
    {
      && s in old(trie.inner) && s in old(at) && Extends(s, k) && k !in old(at)
      && Enrolled(k, leaf) && leaf.tag == Tag.Leaf && leaf.key == k && leaf.parent == old(at[s])
      && k[|s|] !in old(trie.inner[s]) && trie == old(trie).Hang(s, k)
      && old(at[s]).Rep() && old(at[s]).kids == old(at[s].kids)[k[|s|] := leaf]
      && SameHeader(old(at[s])) && old(at[s]).parent == old(at[s].parent)
      && root == old(root) && dummy.root == old(dummy.root)
    }

    twostate lemma HungKids(new s: Str, new k: Str, new leaf: Node, new t: Str)
      requires old(Owned()) && Owned() && Hung(s, k, leaf) && t in trie.inner && old(KidsOk(t))
      ensures KidsOk(t)
    {
      hide Node.Rep, SameHeader;
      if t == s {
        KidsSet(s, k[|s|], k);
      } else {
        KidsKept(t);
      }
    }

    twostate lemma HungParent(new s: Str, new k: Str, new leaf: Node, new t: Str)
      requires old(Owned()) && Owned() && Hung(s, k, leaf) && t in old(at) && old(ParentOk(t))
      requires k !in old(trie.inner)
      ensures ParentOk(t)
    {
      hide Node.Rep;
    }

    twostate lemma HungParentNew(new s: Str, new k: Str, new leaf: Node)
      requires old(Owned()) && Owned() && Hung(s, k, leaf) && k !in old(trie.inner) && k != trie.root
      ensures ParentOk(k)
    {
      hide Node.Rep;
    }

    twostate lemma HungPrefix(new s: Str, new k: Str, new leaf: Node, new t: Str)
      requires old(Owned()) && Owned() && Hung(s, k, leaf) && t in old(at) && old(PrefixOk(t))
      ensures PrefixOk(t)
    {
      hide Node.Rep;
    }

    twostate lemma HungBand(new s: Str, new k: Str, new leaf: Node, new t: Str)
      requires old(Owned()) && Owned() && Hung(s, k, leaf) && t in trie.inner && t != s && old(BandOk(t))
      ensures BandOk(t)
    {
      hide Node.Rep;
    }

    twostate lemma HungLeaves(new s: Str, new k: Str, new leaf: Node)
      requires old(Owned()) && Owned() && Hung(s, k, leaf) && old(at.Keys == trie.Nodes())
      requires forall t :: t in old(trie.keys) ==> old(LeafOk(t))
      ensures forall t :: t in trie.keys ==> LeafOk(t)
      ensures at.Keys == trie.Nodes()
    {
      hide Node.Rep;
    }

    twostate lemma HungAnchored(new s: Str, new k: Str, new leaf: Node)
      requires old(Owned()) && Owned() && Hung(s, k, leaf) && old(Anchored()) && old(root) != null
      requires trie.WF(length)
      ensures Anchored()
    {
      hide Node.Rep, Trie.WF;
    }

    /** A hung leaf keeps the tree wired. */
    twostate lemma HungWired(new s: Str, new k: Str, new leaf: Node)
      requires old(Wired()) && old(root) != null && Hung(s, k, leaf) && |k| == length
      ensures Wired() && root != null
      ensures forall t :: t in trie.inner && t != s && old(BandOk(t)) ==> BandOk(t)
    {
      hide Node.Rep, ParentOk, KidsOk, PrefixOk, LeafOk, BandOk, Trie.WF, Anchored, KeptBut, Extends;
      EnrolledOwned(k, leaf);
      HungTrie(s, k, leaf);
      HungAnchored(s, k, leaf);
      HungLeaves(s, k, leaf);
      forall t | t in trie.inner ensures KidsOk(t) && PrefixOk(t) && (t != s && old(BandOk(t)) ==> BandOk(t)) {
        HungKids(s, k, leaf, t);
        HungPrefix(s, k, leaf, t);
        if t != s && old(BandOk(t)) { HungBand(s, k, leaf, t); }
      }
      forall t | t in at ensures ParentOk(t) {
        if t == k {
          HungParentNew(s, k, leaf);
        } else {
          HungParent(s, k, leaf, t);
        }
      }
    }

    twostate lemma HungTrie(new s: Str, new k: Str, new leaf: Node)
      requires old(Wired()) && old(root) != null && Hung(s, k, leaf) && |k| == length
      ensures trie.WF(length) && k !in old(trie.inner) && k != old(trie.root)
    {
      hide Node.Rep, ParentOk, KidsOk, PrefixOk, LeafOk, BandOk, KeptBut;
      HangWF(old(trie), length, s, k);
    }

    method HangRaw(n: Node, leaf: Node, k: Str)
      requires n.full in trie.inner && n.full in at && at[n.full] == n && Extends(n.full, k) && k !in at
      requires n.Rep() && k[|n.full|] !in n.kids && k[|n.full|] !in trie.inner[n.full] && n.count < MaxSize(n.tag)
      requires n.depth + n.prefixLength == |n.full|
      requires leaf !in Repr && leaf.bytes !in Repr && leaf.children !in Repr
      requires leaf.full == leaf.key == k && leaf.tag == Tag.Leaf && leaf.parent == n && leaf != n
      modifies `count, `at, `trie, `Repr, n`count, n`kids, n`owner, n.bytes, n.children
      ensures HungAt(n.full, k, leaf)
      ensures count == old(count) + 1 && n.count == old(n.count) + 1
    {
      hide Node.Rep;
      n.Insert(k[n.depth + n.prefixLength], leaf);
      count := count + 1;
      trie, at, Repr := trie.Hang(n.full, k), at[k := leaf], Repr + {leaf, leaf.bytes, leaf.children};
    }

    method HangStep(n: Node, leaf: Node, k: Str)
      requires Owned() && n.full in trie.inner && n.full in at && at[n.full] == n && Extends(n.full, k) && k !in at
      requires n.Rep() && k[|n.full|] !in n.kids && k[|n.full|] !in trie.inner[n.full] && n.count < MaxSize(n.tag)
      requires n.depth + n.prefixLength == |n.full|
      requires leaf !in Repr && leaf.bytes !in Repr && leaf.children !in Repr
      requires leaf.full == leaf.key == k && leaf.tag == Tag.Leaf && leaf.parent == n
      modifies `count, `at, `trie, `Repr, n`count, n`kids, n`owner, n.bytes, n.children
      ensures Hung(n.full, k, leaf)
      ensures count == old(count) + 1 && n.count == old(n.count) + 1
    {
      hide Node.Rep, HungAt;
      HangRaw(n, leaf, k);
    }

    /** Inserts the leaf of the absent key k into the inner node n, its parent, which has room. */
    method HangLeaf(n: Node, leaf: Node, k: Str)
      requires Wired() && root != null && n.full in trie.inner && at[n.full] == n && Extends(n.full, k) && |k| == length
      requires k[|n.full|] !in n.kids && n.count < MaxSize(n.tag)
      requires leaf !in Repr && leaf.bytes !in Repr && leaf.children !in Repr
      requires leaf.full == leaf.key == k && leaf.tag == Tag.Leaf && leaf.parent == n
      modifies Repr
      ensures Wired() && root != null && count == old(count) + 1
      ensures trie == old(trie).Hang(n.full, k) && k !in old(trie.keys)
      ensures at == old(at)[k := leaf] && Repr == old(Repr) + {leaf, leaf.bytes, leaf.children}
      ensures forall s :: s in trie.inner && s != n.full && old(BandOk(s)) ==> BandOk(s)
      ensures n.count == old(n.count) + 1
    {
      hide Node.Rep, Trie.WF, LeafOk, ParentOk, KidsOk, Anchored, BandOk, Wired, KeptBut;
      ghost var s := n.full;
      InnerReady(s);
      HangReady(s, k);
      WiredOwned();
      HangStep(n, leaf, k);
      HungWired(s, k, leaf);
    }

    lemma HangReady(s: Str, k: Str)
      requires Wired() && s in trie.inner && s in at && Extends(s, k) && |k| == length && root != null
      requires k[|s|] !in at[s].kids
      ensures k !in at && k[|s|] !in trie.inner[s] && k !in trie.keys && PrefixOk(s)
    {
      hide Node.Rep, LeafOk, ParentOk;
      assert KidsOk(s);
      assert trie.WF(length);
      HangWF(trie, length, s, k);
    }

    // ---- A leaf taken away from an inner node ----

    /** The leaf of k below the node named s is gone. */
    twostate predicate Unhung(new s: Str, new k: Str)
      reads *
    {
      UnhungAt(s, k) && KeptBut({s})
    }

    twostate predicate UnhungAt(new s: Str, new k: Str)
      reads *
    {
      && s in old(trie.inner) && s in old(at) && Extends(s, k) && k in old(trie.keys)
      && k[|s|] in old(trie.inner[s]) && old(trie.inner[s])[k[|s|]] == k
      && at == old(at) - {k} && Repr == old(Repr) && trie == old(trie).Unhang(s, k)
      && old(at[s]).Rep() && old(at[s]).kids == old(at[s].kids) - {k[|s|]}
      && SameHeader(old(at[s])) && old(at[s]).parent == old(at[s].parent)
      && root == old(root) && dummy.root == old(dummy.root)
    }

    twostate lemma UnhungKids(new s: Str, new k: Str, new t: Str)
      requires old(Owned()) && Owned() && Unhung(s, k) && t in trie.inner && old(KidsOk(t)) && t != k && s != k
      requires forall p, b :: p in old(trie.inner) && b in old(trie.inner[p]) && old(trie.inner[p])[b] == k ==> p == s && b == k[|s|]
      ensures KidsOk(t)
    {
      hide Node.Rep, SameHeader;
      if t == s {
        KidsUnset(s, k[|s|]);
      } else {
        KidsKept(t);
      }
    }

    twostate lemma UnhungParent(new s: Str, new k: Str, new t: Str)
      requires old(Owned()) && Owned() && Unhung(s, k) && t in at && old(ParentOk(t)) && t != k
      requires k !in old(trie.inner)
      ensures ParentOk(t)
    {
      hide Node.Rep;
    }

    twostate lemma UnhungPrefix(new s: Str, new k: Str, new t: Str)
      requires old(Owned()) && Owned() && Unhung(s, k) && t in at && old(PrefixOk(t))
      ensures PrefixOk(t)
    {
      hide Node.Rep;
    }

    twostate lemma UnhungBand(new s: Str, new k: Str, new t: Str)
      requires old(Owned()) && Owned() && Unhung(s, k) && t in at && t != s && old(BandOk(t))
      ensures BandOk(t)
    {
      hide Node.Rep;
    }

    twostate lemma UnhungLeaves(new s: Str, new k: Str)
      requires old(Owned()) && Owned() && Unhung(s, k) && old(at.Keys == trie.Nodes()) && k !in old(trie.inner)
      requires forall t :: t in old(trie.keys) ==> old(LeafOk(t))
      ensures forall t :: t in trie.keys ==> LeafOk(t)
      ensures at.Keys == trie.Nodes()
    {
      hide Node.Rep;
    }

    twostate lemma UnhungAnchored(new s: Str, new k: Str)
      requires old(Owned()) && Owned() && Unhung(s, k) && old(Anchored()) && old(root) != null
      requires trie.WF(length) && k != trie.root
      ensures Anchored()
    {
      hide Node.Rep, Trie.WF;
    }

    twostate lemma UnhungOwned(new s: Str, new k: Str)
      requires old(Owned()) && Unhung(s, k)
      ensures Owned()
    {
      hide Node.Rep, KeptBut;
    }

    twostate lemma UnhungTrie(new s: Str, new k: Str)
      requires old(Wired()) && old(root) != null && Unhung(s, k)
      ensures trie.WF(length) && k !in old(trie.inner) && k != old(trie.root) && s != k
      ensures forall p, b :: p in old(trie.inner) && b in old(trie.inner[p]) && old(trie.inner[p])[b] == k ==> p == s && b == k[|s|]
    {
      hide Node.Rep, ParentOk, KidsOk, PrefixOk, LeafOk, BandOk, KeptBut;
      var tr := old(trie);
      assert tr.ChildOk(s, k[|s|]);
      assert tr.root <= s;
      UnhangWF(tr, length, s, k);
      forall p, b | p in tr.inner && b in tr.inner[p] && tr.inner[p][b] == k ensures p == s && b == k[|s|] {
        ParentUnique(tr, length, p, b, s, k[|s|], k);
      }
    }

    /** A taken leaf keeps the tree wired. */
    twostate lemma UnhungWired(new s: Str, new k: Str)
      requires old(Wired()) && old(root) != null && Unhung(s, k)
      ensures Wired() && root != null
      ensures forall t :: t in trie.inner && t != s && old(BandOk(t)) ==> BandOk(t)
    {
      hide Node.Rep, ParentOk, KidsOk, PrefixOk, LeafOk, BandOk, Trie.WF, Anchored, KeptBut, Extends;
      UnhungOwned(s, k);
      UnhungTrie(s, k);
      UnhungAnchored(s, k);
      UnhungLeaves(s, k);
      forall t | t in trie.inner ensures KidsOk(t) && PrefixOk(t) && (t != s && old(BandOk(t)) ==> BandOk(t)) {
        UnhungKids(s, k, t);
        UnhungPrefix(s, k, t);
        if t != s && old(BandOk(t)) { UnhungBand(s, k, t); }
      }
      forall t | t in at ensures ParentOk(t) {
        UnhungParent(s, k, t);
      }
    }

    method UnhangRaw(n: Node, k: Str)
      requires n.full in trie.inner && n.full in at && at[n.full] == n && Extends(n.full, k) && k in trie.keys
      requires n.Rep() && k[|n.full|] in n.kids && k[|n.full|] in trie.inner[n.full] && trie.inner[n.full][k[|n.full|]] == k
      requires n.depth + n.prefixLength == |n.full| && count > 0
      modifies `count, `at, `trie, n`count, n`kids, n.bytes, n.children
      ensures UnhungAt(n.full, k)
      ensures count == old(count) - 1 && n.count == old(n.count) - 1
    {
      hide Node.Rep;
      n.Erase(k[n.depth + n.prefixLength]);
      count := count - 1;
      trie, at := trie.Unhang(n.full, k), at - {k};
    }

    method UnhangStep(n: Node, k: Str)
      requires Owned() && n.full in trie.inner && n.full in at && at[n.full] == n && Extends(n.full, k) && k in trie.keys
      requires n.Rep() && k[|n.full|] in n.kids && k[|n.full|] in trie.inner[n.full] && trie.inner[n.full][k[|n.full|]] == k
      requires n.depth + n.prefixLength == |n.full| && count > 0
      modifies `count, `at, `trie, n`count, n`kids, n.bytes, n.children
      ensures Unhung(n.full, k)
      ensures count == old(count) - 1 && n.count == old(n.count) - 1
    {
      hide Node.Rep, UnhungAt;
      UnhangRaw(n, k);
    }

    /** Erases the leaf of the key k from the inner node n, its parent. */
    method UnhangLeaf(n: Node, k: Str)
      requires Wired() && root != null && n.full in trie.inner && at[n.full] == n
      requires k in trie.keys && k in at && at[k].parent == n
      requires count > 0
      modifies Repr
      ensures Wired() && root != null && count == old(count) - 1
      ensures Extends(n.full, k) && trie == old(trie).Unhang(n.full, k)
      ensures at == old(at) - {k} && Repr == old(Repr)
      ensures forall s :: s in trie.inner && s != n.full && old(BandOk(s)) ==> BandOk(s)
      ensures n.count == old(n.count) - 1
    {
      hide Node.Rep, Trie.WF, LeafOk, ParentOk, KidsOk, Anchored, BandOk, Wired, KeptBut;
      ghost var s := n.full;
      InnerReady(s);
      UnhangReady(s, k);
      WiredOwned();
      UnhangStep(n, k);
      UnhungWired(s, k);
    }

    lemma UnhangReady(s: Str, k: Str)
      requires Wired() && s in trie.inner && s in at && k in trie.keys && root != null
      requires k in at && at[k].parent == at[s]
      ensures Extends(s, k) && k[|s|] in at[s].kids && k[|s|] in trie.inner[s] && trie.inner[s][k[|s|]] == k && PrefixOk(s)
      ensures k in trie.keys
    {
      hide Node.Rep, LeafOk;
      assert KidsOk(s) && ParentOk(k);
      assert k != trie.root;
      assert trie.ChildOk(s, k[|s|]);
    }

    // ---- A one-child inner node between a node and its parent ----

    ghost function AboveOf(c: Str): set<Str>
      reads `trie, `at, at.Values
      requires c in at
    {
      if c == trie.root || at[c].parent == null then {c} else {c, at[c].parent.full}
    }

    /** The new one-child node m named t now stands between the node named c and its parent. */
    twostate predicate Interposed(new c: Str, new t: Str, new m: Node)
      reads *
    {
      && InterposedAt(c, t, m) && InterposedChild(c, t, m) && InterposedAbove(c, t, m)
      && KeptBut(old(AboveOf(c)))
    }

    twostate predicate InterposedAt(new c: Str, new t: Str, new m: Node)
      reads *
    {
      && c in old(at) && Extends(t, c) && c[..|t|] == t && t !in old(at) && old(at[c].parent) != null
      && (c != old(trie.root) ==> old(at[c].parent.full) in old(trie.inner) && |old(at[c].parent.full)| < |t|)
      && Enrolled(t, m)
      && trie == old(trie).Interpose(old(at[c].parent.full), c, |t|)
      && m.Rep() && m.kids == map[c[|t|] := old(at[c])] && m.parent == old(at[c].parent)
      && m.depth == (if c == old(trie.root) then 0 else |old(at[c].parent.full)| + 1)
      && StoresPrefix(m.prefix, m.depth, m.prefixLength, t)
    }

    twostate predicate InterposedChild(new c: Str, new t: Str, new m: Node)
      reads *
    {
      && c in old(at) && old(at[c]).parent == m && SameKids(old(at[c]))
      && (c in old(trie.inner) ==>
            var n := old(at[c]); n.depth == |t| + 1 && StoresPrefix(n.prefix, n.depth, n.prefixLength, c))
    }

    twostate predicate InterposedAbove(new c: Str, new t: Str, new m: Node)
      reads *
    {
      && c in old(at) && old(at[c].parent) != null
      && Redirected(c, old(at[c].parent), m)
      && (c != old(trie.root) ==>
            var p := old(at[c].parent); SameHeader(p) && p.parent == old(p.parent))
    }

    twostate lemma InterposedKids(new c: Str, new t: Str, new m: Node, new u: Str)
      requires old(Owned()) && Owned() && Interposed(c, t, m) && u in trie.inner && u != t && old(KidsOk(u))
      requires old(Placed(c))
      ensures KidsOk(u)
    {
      hide Node.Rep, SameHeader, StoresPrefix;
      if c != old(trie.root) && u == old(at[c].parent.full) {
        KidsSet(u, c[|u|], t);
      } else {
        KidsKept(u);
      }
    }

    twostate lemma InterposedKidsNew(new c: Str, new t: Str, new m: Node)
      requires old(Owned()) && Owned() && Interposed(c, t, m)
      ensures KidsOk(t)
    {
      hide Node.Rep, SameHeader, StoresPrefix, KeptBut;
    }

    twostate lemma InterposedParentNew(new c: Str, new t: Str, new m: Node)
      requires old(Owned()) && Owned() && Interposed(c, t, m) && old(ParentOk(c)) && old(root) != null
      requires t != old(trie.root) || c == old(trie.root)
      ensures ParentOk(t)
    {
      hide Node.Rep, SameHeader, StoresPrefix, KeptBut;
    }

    twostate lemma InterposedParentChild(new c: Str, new t: Str, new m: Node)
      requires old(Owned()) && Owned() && Interposed(c, t, m)
      ensures ParentOk(c)
    {
      hide Node.Rep, SameHeader, StoresPrefix, KeptBut;
    }

    twostate lemma InterposedParent(new c: Str, new t: Str, new m: Node, new u: Str)
      requires old(Owned()) && Owned() && Interposed(c, t, m) && u in old(at) && u != c && old(ParentOk(u))
      requires old(Placed(c))
      ensures ParentOk(u)
    {
      hide Node.Rep, StoresPrefix;
    }

    twostate lemma InterposedPrefix(new c: Str, new t: Str, new m: Node, new u: Str)
      requires old(Owned()) && Owned() && Interposed(c, t, m) && u in trie.inner && (u != t ==> u in old(trie.inner) && old(PrefixOk(u)))
      requires old(Placed(c))
      ensures PrefixOk(u)
    {
      hide Node.Rep;
    }

    static twostate lemma SameCount(n: Node)
      requires old(n.Rep()) && n.Rep() && n.kids.Keys == old(n.kids.Keys)
      ensures n.count == old(n.count)
    {
      hide Node.Sorted, Node.Indexed, Node.Direct;
      assert |n.kids| == |n.kids.Keys| && |old(n.kids)| == |old(n.kids.Keys)|;
    }

    twostate lemma InterposedBand(new c: Str, new t: Str, new m: Node, new u: Str)
      requires old(Owned()) && Owned() && Interposed(c, t, m) && u in old(trie.inner) && u != t && old(BandOk(u))
        && old(KidsOk(u))
      requires old(Placed(c))
      ensures BandOk(u)
    {
      hide StoresPrefix, Node.Rep, SameHeader;
      if c != old(trie.root) && u == old(at[c].parent.full) {
        assert c[|u|] in old(at[u].kids);
        SameCount(old(at[u]));
      }
    }

    twostate lemma InterposedBandNew(new c: Str, new t: Str, new m: Node)
      requires old(Owned()) && Owned() && Interposed(c, t, m) && m.tag == Node4
      ensures BandOk(t)
    {
      hide Node.Rep, StoresPrefix, KeptBut;
    }

    twostate lemma InterposedLeaves(new c: Str, new t: Str, new m: Node)
      requires old(Owned()) && Owned() && Interposed(c, t, m) && old(at.Keys == trie.Nodes())
      requires forall k :: k in old(trie.keys) ==> old(LeafOk(k))
      ensures forall k :: k in trie.keys ==> LeafOk(k)
      ensures at.Keys == trie.Nodes()
    {
      hide Node.Rep, StoresPrefix, KeptBut;
    }

    twostate lemma InterposedAnchored(new c: Str, new t: Str, new m: Node)
      requires old(Owned()) && Owned() && Interposed(c, t, m) && old(Anchored()) && old(root) != null
      requires trie.WF(length) && at.Keys == trie.Nodes()
      ensures Anchored() && root != null
    {
      hide Node.Rep, Trie.WF, StoresPrefix, SameKids, SameHeader;
    }

    twostate lemma InterposedTrie(new c: Str, new t: Str, new m: Node)
      requires old(Wired()) && old(root) != null && Interposed(c, t, m) && old(Placed(c))
      ensures trie.WF(length) && (t != old(trie.root) || c == old(trie.root))
    {
      hide Node.Rep, ParentOk, KidsOk, PrefixOk, LeafOk, BandOk, KeptBut, StoresPrefix;
      InterposeWF(old(trie), length, old(at[c].parent.full), c, |t|);
    }

    twostate lemma InterposedWired(new c: Str, new t: Str, new m: Node)
      requires old(Wired()) && old(root) != null && Interposed(c, t, m) && old(Placed(c)) && m.tag == Node4
      ensures Wired() && root != null
      ensures forall u :: u in trie.inner && u in old(trie.inner) && old(BandOk(u)) ==> BandOk(u)
      ensures t in trie.inner && BandOk(t)
    {
      hide Node.Rep, ParentOk, KidsOk, PrefixOk, LeafOk, BandOk, Trie.WF, Anchored, KeptBut, Extends, StoresPrefix, Placed,
        SameKids, SameHeader, Redirected, InterposedChild, InterposedAbove;
      EnrolledOwned(t, m);
      InterposedTrie(c, t, m);
      InterposedLeaves(c, t, m);
      InterposedAnchored(c, t, m);
      InterposedBandNew(c, t, m);
      forall u | u in trie.inner ensures KidsOk(u) && PrefixOk(u) && (u in old(trie.inner) && old(BandOk(u)) ==> BandOk(u)) {
        InterposedPrefix(c, t, m, u);
        if u == t {
          InterposedKidsNew(c, t, m);
        } else {
          InterposedKids(c, t, m, u);
          if old(BandOk(u)) { InterposedBand(c, t, m, u); }
        }
      }
      forall u | u in at ensures ParentOk(u) {
        if u == t {
          InterposedParentNew(c, t, m);
        } else if u == c {
          InterposedParentChild(c, t, m);
        } else {
          InterposedParent(c, t, m, u);
        }
      }
    }

    // ---- Order: minimum, maximum, successor, predecessor ----

    /** n is a live node. */
    ghost predicate Live(n: Node)
      reads `at
    {
      n.full in at && at[n.full] == n
    }

    /** In a wired tree a live node is a leaf exactly when it is tagged so. */
    lemma LiveKind(n: Node)
      requires Wired() && root != null && Live(n)
      ensures n.tag == Tag.Leaf <==> n.full in trie.keys
      ensures n.tag != Tag.Leaf <==> n.full in trie.inner
      ensures n.tag != Tag.Leaf ==> n.Rep() && n.depth + n.prefixLength == |n.full| < length && n.kids.Keys == trie.inner[n.full].Keys
      ensures n.tag == Tag.Leaf ==> n.key == n.full && |n.full| == length
    {
      hide Anchored, ParentOk, Node.Sorted, Node.Indexed, Node.Direct;
      WiredAt(n.full);
      WiredTrie();
      assert n.full in trie.inner ==> KidsOk(n.full) && PrefixOk(n.full);
    }

    lemma WiredTrie()
      requires Wired() && root != null
      ensures trie.WF(length) && at.Keys == trie.Nodes()
    {
      hide Node.Rep, Trie.WF, KidsOk, PrefixOk, LeafOk, ParentOk;
    }

    lemma LiveChild(n: Node, b: Byte)
      requires Wired() && root != null && Live(n) && n.full in trie.inner && b in trie.inner[n.full]
      ensures b in n.kids && Live(n.kids[b]) && n.kids[b].full == trie.inner[n.full][b]
      ensures Extends(n.full, n.kids[b].full) && |n.full| < |n.kids[b].full|
      ensures n.kids[b].full[|n.full|] == b && |n.kids[b].full| <= length
    {
      hide Node.Rep, Anchored, PrefixOk, LeafOk, ParentOk;
      assert KidsOk(n.full);
      WiredTrie();
      assert trie.ChildOk(n.full, b);
    }

    method Minimum(n: Node) returns (r: Node)
      requires Wired() && root != null && trie.Inhabited() && Live(n)
      ensures Live(r) && IsMin(trie, n.full, r.full) && r.tag == Tag.Leaf && r.key == r.full
      decreases length - |n.full|
    {
      hide Wired, Node.Rep, Trie.WF, IsMin, Extends;
      LiveKind(n);
      WiredTrie();
      if n.tag == Tag.Leaf {
        LeafIsMin(trie, length, n.full);
        return n;
      }
      var c, x := n.Next(-1);
      SomeChild(n);
      LiveChild(n, x);
      r := Minimum(c);
      MinOfFirst(trie, length, n.full, x, r.full);
    }

    lemma SomeChild(n: Node)
      requires Wired() && root != null && trie.Inhabited() && Live(n) && n.full in trie.inner
      ensures exists b: Byte :: b in n.kids
    {
      hide Node.Rep, Trie.WF, PrefixOk, LeafOk, ParentOk, Anchored;
      assert KidsOk(n.full);
      assert trie.Branches(n.full, 1);
      var b :| b in trie.inner[n.full];
    }

    method Maximum(n: Node) returns (r: Node)
      requires Wired() && root != null && trie.Inhabited() && Live(n)
      ensures Live(r) && IsMax(trie, n.full, r.full) && r.tag == Tag.Leaf && r.key == r.full
      decreases length - |n.full|
    {
      hide Wired, Node.Rep, Trie.WF, IsMax, Extends;
      LiveKind(n);
      WiredTrie();
      if n.tag == Tag.Leaf {
        LeafIsMin(trie, length, n.full);
        return n;
      }
      var c, x := n.Prev(256);
      SomeChild(n);
      LiveChild(n, x);
      r := Maximum(c);
      MaxOfLast(trie, length, n.full, x, r.full);
    }

    /** What successor(k) may rely on when it is called on node n. */
    ghost predicate Climbing(n: Node, k: Str)
      reads `at, `trie
    {
      if n == dummy then NoneAbove(trie, trie.root, k)
      else Live(n) && n.full in trie.inner && Extends(n.full, k) && NoneAboveOnBranch(trie, n.full, k)
    }

    ghost predicate ClimbingBack(n: Node, k: Str)
      reads `at, `trie
    {
      if n == dummy then NoneBelow(trie, trie.root, k)
      else Live(n) && n.full in trie.inner && Extends(n.full, k) && NoneBelowOnBranch(trie, n.full, k)
    }

    /** The parent takes over when no key at or below s is above k. */
    lemma ClimbFrom(s: Str, k: Str)
      requires Wired() && root != null && s in at && s <= k && |k| == length
      ensures at[s].parent != null && (at[s].parent != dummy ==> |at[s].parent.full| < |s|)
      ensures NoneAbove(trie, s, k) ==> Climbing(at[s].parent, k)
      ensures NoneBelow(trie, s, k) ==> ClimbingBack(at[s].parent, k)
    {
      hide Node.Rep, Trie.WF, PrefixOk, LeafOk, Anchored, KidsOk, NoneAbove, NoneBelow, Extends, NoneAboveOnBranch,
        NoneBelowOnBranch;
      WiredTrie();
      assert ParentOk(s);
      if s != trie.root {
        BranchIsChild(trie, length, at[s].parent.full, s, k);
      }
    }

    /** successor(k) called on the inner node or dummy node n. */
    method Successor(n: Node, k: Str) returns (r: Node)
      requires Wired() && root != null && trie.Inhabited() && |k| == length && Climbing(n, k)
      ensures r == endLeaf || (Live(r) && r.tag == Tag.Leaf && r.key == r.full)
      ensures if r == endLeaf then forall j :: j in trie.keys ==> !Less(k, j) else IsNext(trie.keys, k, r.full)
      decreases if n == dummy then 0 else |n.full| + 1
    {
      hide Wired, Node.Rep, Trie.WF, IsMin, IsNext, NoneAbove, NoneAboveOnBranch, Less;
      WiredTrie();
      DummyKind();
      if n.tag == Dummy {
        RootIsAll(trie, length, k);
        return endLeaf;
      }
      LiveKind(n);
      var c, x := n.Next(k[n.depth + n.prefixLength]);
      if c != null {
        LiveChild(n, x);
        r := Minimum(c);
        NextInNode(trie, length, n.full, k, x, r.full);
        NotEnd(r);
      } else {
        NoneAboveNode(trie, length, n.full, k);
        ClimbFrom(n.full, k);
        r := Successor(n.parent, k);
      }
    }

    lemma DummyKind()
      requires Wired()
      ensures dummy.tag == Dummy && endLeaf.tag == Tag.Leaf && endLeaf.parent == dummy
      ensures root != null ==> forall s :: s in at ==> at[s].tag != Dummy
    {
      hide Node.Sorted, Node.Indexed, Node.Direct, Trie.WF, PrefixOk, ParentOk;
    }

    lemma NotEnd(r: Node)
      requires Wired() && Live(r)
      ensures r != endLeaf
    {
      hide Node.Rep, Trie.WF, PrefixOk, ParentOk, KidsOk;
    }

    /** No key is below k and r is the last leaf. */
    ghost predicate Wraps(r: Node, k: Str)
      reads `trie
    {
      IsMax(trie, trie.root, r.full) && forall j :: j in trie.keys ==> !Less(j, k)
    }

    /** predecessor(k) called on the inner node or dummy node n; the dummy node answers with the last leaf. */
    method Predecessor(n: Node, k: Str) returns (r: Node)
      requires Wired() && root != null && trie.Inhabited() && |k| == length && (n == dummy || ClimbingBack(n, k))
      ensures Live(r) && r.tag == Tag.Leaf && r.key == r.full
      ensures n == dummy ==> IsMax(trie, trie.root, r.full)
      ensures n != dummy ==> IsPrev(trie.keys, k, r.full) || Wraps(r, k)
      decreases if n == dummy then 0 else |n.full| + 1
    {
      hide Wired, Node.Rep, Trie.WF, IsMax, IsPrev, NoneBelow, NoneBelowOnBranch, Less;
      WiredTrie();
      DummyKind();
      RootLive();
      if n.tag == Dummy {
        r := Maximum(n.root);
        return;
      }
      LiveKind(n);
      var c, x := n.Prev(k[n.depth + n.prefixLength]);
      if c != null {
        LiveChild(n, x);
        r := Maximum(c);
        PrevInNode(trie, length, n.full, k, x, r.full);
      } else {
        NoneBelowNode(trie, length, n.full, k);
        ClimbFrom(n.full, k);
        RootIsAll(trie, length, k);
        r := Predecessor(n.parent, k);
      }
    }

    lemma RootLive()
      requires Wired() && root != null
      ensures Live(root) && root.full == trie.root && dummy.root == root && dummy in Repr
    {
      hide Node.Rep, Trie.WF, PrefixOk, LeafOk, KidsOk, ParentOk;
    }

    /** An iterator position: a live leaf or the end marker. */
    ghost predicate Position(node: Node)
      reads `at, `root
    {
      node == endLeaf || (root != null && Live(node) && node.tag == Tag.Leaf)
    }

    method Begin() returns (r: Node)
      requires Wired() && trie.Inhabited()
      ensures Position(r) && (root == null <==> r == endLeaf)
      ensures r != endLeaf ==> IsMin(trie, trie.root, r.full)
    {
      hide Wired, Node.Rep, Trie.WF, IsMin;
      if root == null {
        return endLeaf;
      }
      RootLive();
      r := Minimum(root);
      NotEnd(r);
    }

    /** operator++ */
    method Increment(node: Node) returns (r: Node)
      requires Wired() && trie.Inhabited() && Position(node)
      ensures Position(r)
      ensures node == endLeaf ==> r == endLeaf
      ensures node != endLeaf ==>
        if r == endLeaf then forall j :: j in trie.keys ==> !Less(node.full, j) else IsNext(trie.keys, node.full, r.full)
    {
      hide Wired, Node.Rep, Trie.WF, IsNext, NoneAbove, Less;
      DummyKind();
      if node != endLeaf {
        LeafClimbs(node);
      }
      if node.parent.tag == Dummy {
        r := endLeaf;
      } else {
        r := Successor(node.parent, node.key);
      }
    }

    lemma LeafClimbs(node: Node)
      requires Wired() && root != null && Live(node) && node.tag == Tag.Leaf && node != endLeaf
      ensures node.parent != null && (node.parent.tag == Dummy <==> node.parent == dummy)
      ensures Climbing(node.parent, node.key) && ClimbingBack(node.parent, node.key)
      ensures node.key == node.full && |node.key| == length
      ensures node.parent == dummy ==> forall j :: j in trie.keys ==> !Less(node.key, j) && !Less(j, node.key)
    {
      hide Wired, Node.Rep, Trie.WF, Less;
      LiveKind(node);
      WiredTrie();
      DummyKind();
      LeafIsMin(trie, length, node.full);
      LessIrreflexive(node.full);
      forall k | k in trie.keys && node.full <= k ensures k == node.full {
        assert |k| == length by { KeySize(k); }
        PrefixEqual(node.full, k);
      }
      ClimbFrom(node.full, node.full);
      RootIsAll(trie, length, node.full);
    }

    lemma KeySize(k: Str)
      requires Wired() && root != null && k in trie.keys
      ensures |k| == length
    {
      hide Node.Rep, PrefixOk, LeafOk, KidsOk, ParentOk;
    }

    /** operator-- ; from the first leaf it wraps around to the last. In a tree that was emptied the dummy node's pointer is
        stale, and there is no leaf to go to. */
    method Decrement(node: Node) returns (r: Node)
      requires Wired() && trie.Inhabited() && Position(node) && (root == null ==> dummy.root == null)
      ensures if root == null then r == endLeaf else Position(r) && r != endLeaf
      ensures root != null && node == endLeaf ==> IsMax(trie, trie.root, r.full)
      ensures root != null && node != endLeaf ==> IsPrev(trie.keys, node.full, r.full) || Wraps(r, node.full)
    {
      hide Wired, Node.Rep, Trie.WF, IsPrev, IsMax, NoneBelow, Less;
      DummyKind();
      if root != null {
        RootLive();
        if node != endLeaf {
          LeafClimbs(node);
        }
      } else {
        OnlyEnd(node);
      }
      if node.parent.tag == Dummy {
        if dummy.root == null {
          return endLeaf;
        }
        r := Maximum(dummy.root);
      } else {
        r := Predecessor(node.parent, node.key);
      }
      NotEnd(r);
    }

    lemma OnlyEnd(node: Node)
      requires Wired() && root == null && Position(node)
      ensures node == endLeaf && node.parent == dummy && dummy.tag == Dummy
    {
      hide Node.Rep, Trie.WF;
      DummyKind();
    }

    // ---- Splitting: the two ways a one-child node comes to be ----

    /** Where node e hangs: its parent, and the position its own bytes start at. */
    ghost predicate Hangs(e: Node, p: Node, depth: nat)
      reads `at, `trie, e, p, p.bytes, p.children
    {
      && Live(e) && e.parent == p && e != p
      && (e.full == trie.root ==> p == dummy && p.tag == Dummy && depth == 0)
      && (e.full != trie.root ==>
            && p.full in trie.inner && p.tag != Dummy && p.Rep() && depth == |p.full| + 1 && depth <= |e.full|
            && p.full <= e.full && e.full[|p.full|] in p.kids && p.depth + p.prefixLength == |p.full|)
    }

    /** A new Node4 around e, linked in place of e. */
    method Wrap(e: Node, p: Node, key: Str, depth: nat, j: nat) returns (m: Node)
      requires Hangs(e, p, depth) && depth <= j < |e.full| && e.full <= key
      modifies e`parent, `root, dummy`root, p`kids, p.children
      ensures fresh(m) && fresh(m.bytes) && fresh(m.children) && m.tag == Node4 && m.count == 1 && m.full == e.full[..j]
      ensures m.Rep() && m.kids == map[key[j] := e] && m.parent == p && m.depth == depth && m.prefix == BLANK
      ensures e.parent == m && Redirected(e.full, p, m) 
    {
      hide Node.Rep;
      m := new Node.OneChild(e, key[j], depth, e.full[..j]);
      UpdateChildPtr(m.parent, m, key);
    }

    /** Replaces a leaf by a one-child node that takes the bytes [depth, j) common with k as its prefix. */
    method ForkLeafRaw(e: Node, p: Node, k: Str, depth: nat, j: nat) returns (m: Node)
      requires Hangs(e, p, depth) && e.full == e.key && depth <= j < |e.key| == |k| <= 0x1_0000
      requires e.key[..j] == k[..j]
      modifies e`parent, `root, dummy`root, p`kids, p.children
      ensures fresh(m) && fresh(m.bytes) && fresh(m.children) && m.tag == Node4 && m.count == 1 && m.full == e.full[..j]
      ensures m.Rep() && m.kids == map[e.full[j] := e] && m.parent == p && m.depth == depth
      ensures StoresPrefix(m.prefix, m.depth, m.prefixLength, m.full)
      ensures e.parent == m && Redirected(e.full, p, m)
    {
      hide Node.Rep, Hangs;
      m := Wrap(e, p, e.key, depth, j);
      m.prefixLength := (j - depth) % 0x1_0000;
      m.prefix := Overwrite(m.prefix, k[depth..depth + Stored(m.prefixLength)]);
      assert forall i :: depth <= i < j ==> k[i] == k[..j][i] == m.full[i];
    }

    /** The trie, the live nodes and the footprint after putting m between c and its parent p. */
    ghost method EnrolInterposed(c: Str, p: Node, m: Node)
      requires m.full !in at && |m.full| < |c|
      requires c == trie.root || (p.full in trie.inner && |p.full| < |c|)
      modifies `at, `trie, `Repr
      ensures at == old(at)[m.full := m] && Repr == old(Repr) + {m, m.bytes, m.children}
      ensures trie == old(trie).Interpose(p.full, c, |m.full|)
    {
      trie := trie.Interpose(p.full, c, |m.full|);
      at := at[m.full := m];
      Repr := Repr + {m, m.bytes, m.children};
    }

    method ForkLeafBook(e: Node, p: Node, k: Str, depth: nat, j: nat) returns (m: Node)
      requires Hangs(e, p, depth) && e.full == e.key && depth <= j < |e.key| == |k| <= 0x1_0000
      requires e.key[..j] == k[..j] && e.key[..j] !in at && e.full !in trie.inner && e.children != p.children
      modifies e`parent, `root, dummy`root, p`kids, p.children, `at, `trie, `Repr
      ensures fresh(m) && fresh(m.bytes) && fresh(m.children) && m.tag == Node4 && m.count == 1 && m.full == e.full[..j]
      ensures m !in old(Repr) && m.bytes !in old(Repr) && m.children !in old(Repr) ==> InterposedAt(e.full, e.full[..j], m)
      ensures InterposedChild(e.full, e.full[..j], m)
      ensures InterposedAbove(e.full, e.full[..j], m)
      ensures Repr == old(Repr) + {m, m.bytes, m.children}
    {
      hide Node.Rep, StoresPrefix;
      m := ForkLeafRaw(e, p, k, depth, j);
      EnrolInterposed(e.full, p, m);
    }

    method ForkLeafStep(e: Node, p: Node, k: Str, depth: nat, j: nat) returns (m: Node)
      requires Owned() && Hangs(e, p, depth) && Placed(e.full)
      requires e.full == e.key && depth <= j < |e.key| == |k| <= 0x1_0000
      requires e.key[..j] == k[..j] && e.key[..j] !in at && e.full !in trie.inner
      modifies e`parent, `root, dummy`root, p`kids, p.children, `at, `trie, `Repr
      ensures fresh(m) && fresh(m.bytes) && fresh(m.children) && m.tag == Node4 && m.count == 1 && m.full == e.full[..j]
      ensures Interposed(e.full, e.full[..j], m)
      ensures Repr == old(Repr) + {m, m.bytes, m.children}
    {
      hide Node.Rep, StoresPrefix, InterposedAt, InterposedChild, InterposedAbove;
      m := ForkLeafBook(e, p, k, depth, j);
    }

    /** The bytes of node n start at depth: past its parent's byte, or at 0 for the root. */
    ghost predicate AtDepth(n: Node, depth: nat)
      reads `trie, n
    {
      if n.full == trie.root then depth == 0 else n.parent != null && depth == |n.parent.full| + 1
    }

    lemma HangsReady(e: Node, depth: nat)
      requires Wired() && root != null && Live(e) && AtDepth(e, depth)
      ensures e.parent != null && Hangs(e, e.parent, depth)
    {
      hide Node.Rep, Trie.WF, LeafOk, Anchored;
      WiredAt(e.full);
      ParentReady(e.full);
      if e.full != trie.root {
        ParentIn(e.full);
        WiredTrie();
        assert trie.WF(length);
        ParentExtends(e.full);
      }
    }

    lemma LiveOwned(n: Node)
      requires Wired() && Live(n)
      ensures n in Repr && n.bytes in Repr && n.children in Repr && this in Repr && dummy in Repr
    {
      hide Node.Rep, Trie.WF, LeafOk, Anchored, ParentOk, PrefixOk, KidsOk;
    }

    lemma ParentExtends(s: Str)
      requires Wired() && root != null && s in at && s != trie.root
      ensures at[s].parent != null && at[s].parent.full in trie.inner && Extends(at[s].parent.full, s)
    {
      hide Node.Rep, LeafOk, Anchored, PrefixOk, KidsOk;
      WiredTrie();
      assert ParentOk(s);
      var p := at[s].parent.full;
      assert trie.ChildOk(p, s[|p|]);
    }

    lemma FreshName(c: Str, j: nat)
      requires Wired() && root != null && c in at && j < |c|
      requires c != trie.root ==> at[c].parent != null && |at[c].parent.full| < j
      ensures c[..j] !in at
    {
      hide Node.Rep, LeafOk, Anchored, PrefixOk, KidsOk;
      WiredTrie();
      assert ParentOk(c);
      InterposeNew(trie, length, at[c].parent.full, c, j);
    }

    /** Replaces the leaf e by a one-child node above it, at the first byte j where its key and k differ. */
    method ForkLeaf(e: Node, k: Str, depth: nat, j: nat) returns (m: Node)
      requires Wired() && root != null && Live(e) && e.tag == Tag.Leaf && AtDepth(e, depth)
      requires depth <= j < length == |k| <= 0x1_0000 && e.key[..j] == k[..j]
      modifies Repr
      ensures Wired() && root != null && fresh(Repr - old(Repr)) && count == old(count)
      ensures m.tag == Node4 && m.count == 1 && m.full == e.full[..j] && m.kids.Keys == {e.full[j]}
      ensures old(e.parent) != null && j < |e.full| && trie == old(trie).Interpose(old(e.parent.full), e.full, j)
      ensures at == old(at)[m.full := m] && m.full !in old(at)
      ensures forall u :: u in trie.inner && u in old(trie.inner) && old(BandOk(u)) ==> BandOk(u)
      ensures BandOk(m.full) && m.full in trie.inner
    {
      hide Node.Rep, Trie.WF, LeafOk, ParentOk, KidsOk, Anchored, BandOk, Wired, KeptBut, PrefixOk, Owned, Hangs, Placed,
        InterposedChild, InterposedAbove, StoresPrefix;
      LiveKind(e);
      HangsReady(e, depth);
      WiredPlaced(e.full);
      WiredOwned();
      WiredTrie();
      FreshName(e.full, j);
      ParentReady(e.full);
      LiveOwned(e);
      m := ForkLeafStep(e, e.parent, k, depth, j);
      InterposedWired(e.full, e.full[..j], m);
    }

    /** What a split of node n at its prefix byte pos does to n and the new upper node m. */
    static twostate predicate SplitOff(n: Node, new pos: nat, new m: Node)
      reads *
    {
      && old(n.depth) + pos < |n.full| && m.full == n.full[..old(n.depth) + pos]
      && m.tag == Node4 && m.count == 1 && m.Rep() && m.kids == map[n.full[|m.full|] := n]
      && m.parent == old(n.parent) && m.depth == old(n.depth)
      && StoresPrefix(m.prefix, m.depth, m.prefixLength, m.full)
      && n.parent == m && n.depth == |m.full| + 1 && StoresPrefix(n.prefix, n.depth, n.prefixLength, n.full)
    }

    /** split_prefix_into_parent when the whole prefix is in the node. */
    method SplitPessimistic(n: Node, pos: nat) returns (m: Node)
      requires StoresPrefix(n.prefix, n.depth, n.prefixLength, n.full) && pos < n.prefixLength < MAX_PREFIX_LENGTH
      requires |n.prefix| == MAX_PREFIX_LENGTH && n.depth + n.prefixLength == |n.full|
      modifies n`parent, n`depth, n`prefixLength, n`prefix
      ensures fresh(m) && fresh(m.bytes) && fresh(m.children) && SplitOff(n, pos, m)
    {
      hide Node.Rep, StoresPrefix, Overwrite;
      SplitStores(n.prefix, n.depth, n.prefixLength, n.full, pos, n.full);
      m := new Node.OneChild(n, n.prefix[pos], n.depth, n.full[..n.depth + pos]);
      m.prefixLength := pos % 0x1_0000;
      m.prefix := Overwrite(m.prefix, n.prefix[..pos]);
      n.prefix := Overwrite(n.prefix, n.prefix[pos + 1..]);
      n.prefixLength := n.prefixLength - (pos + 1);
      n.depth := n.depth + (pos + 1);
    }

    /** split_prefix_into_parent when prefix bytes have to be read from the leaf of minKey. */
    method SplitOptimistic(n: Node, pos: nat, minKey: Str) returns (m: Node)
      requires StoresPrefix(n.prefix, n.depth, n.prefixLength, n.full) && n.full <= minKey
      requires |n.prefix| == MAX_PREFIX_LENGTH && n.depth + n.prefixLength == |n.full|
      requires pos < n.prefixLength < 0x1_0000 && MAX_PREFIX_LENGTH <= n.prefixLength
      modifies n`parent, n`depth, n`prefixLength, n`prefix
      ensures fresh(m) && fresh(m.bytes) && fresh(m.children) && SplitOff(n, pos, m)
    {
      hide Node.Rep, StoresPrefix, Overwrite;
      SplitStores(n.prefix, n.depth, n.prefixLength, n.full, pos, minKey);
      m := new Node.OneChild(n, minKey[n.depth + pos], n.depth, n.full[..n.depth + pos]);
      m.prefixLength := pos % 0x1_0000;
      m.prefix := Overwrite(m.prefix, n.prefix);
      var start := n.depth + pos + 1;
      n.prefix := Overwrite(n.prefix, minKey[start..start + Stored(n.prefixLength - (pos + 1))]);
      n.prefixLength := n.prefixLength - (pos + 1);
      n.depth := n.depth + (pos + 1);
    }

    /** split_prefix_into_parent. */
    method SplitPrefixIntoParent(n: Node, pos: nat) returns (m: Node)
      requires Wired() && root != null && trie.Inhabited() && Live(n) && n.full in trie.inner
      requires pos < n.prefixLength && length <= 0x1_0000
      modifies n`parent, n`depth, n`prefixLength, n`prefix
      ensures fresh(m) && fresh(m.bytes) && fresh(m.children) && SplitOff(n, pos, m)
    {
      hide Wired, Node.Rep, StoresPrefix;
      SplitReady(n);
      if n.prefixLength < MAX_PREFIX_LENGTH {
        m := SplitPessimistic(n, pos);
      } else {
        var min := Minimum(n);
        m := SplitOptimistic(n, pos, min.key);
      }
    }

    lemma SplitReady(n: Node)
      requires Wired() && root != null && Live(n) && n.full in trie.inner
      ensures StoresPrefix(n.prefix, n.depth, n.prefixLength, n.full) && n.prefixLength <= |n.full| < length
      ensures |n.prefix| == MAX_PREFIX_LENGTH && n.depth + n.prefixLength == |n.full|
    {
      hide Node.Rep, Anchored, LeafOk, ParentOk, KidsOk;
      WiredTrie();
      assert PrefixOk(n.full);
    }

    /** split_prefix_into_parent, then update_child_ptr on the parent that the new node inherits. */
    method SplitRaw(n: Node, p: Node, k: Str, pos: nat) returns (m: Node)
      requires Wired() && root != null && trie.Inhabited() && n.full in trie.inner && pos < n.prefixLength && length <= 0x1_0000
      requires Hangs(n, p, n.depth) && n.depth + n.prefixLength == |n.full| && n.depth <= |k| && n.full[..n.depth] == k[..n.depth]
      modifies n`parent, n`depth, n`prefixLength, n`prefix, `root, dummy`root, p`kids, p.children
      ensures fresh(m) && fresh(m.bytes) && fresh(m.children)
      ensures SplitOff(n, pos, m)
      ensures Redirected(n.full, p, m)
    {
      hide Node.Rep, StoresPrefix, Wired;
      m := SplitPrefixIntoParent(n, pos);
      assert n.full != trie.root ==> k[|p.full|] == n.full[..old(n.depth)][|p.full|];
      UpdateChildPtr(m.parent, m, k);
    }

    method SplitBook(n: Node, p: Node, k: Str, pos: nat) returns (m: Node)
      requires Wired() && root != null && trie.Inhabited() && n.full in trie.inner && pos < n.prefixLength && length <= 0x1_0000
      requires Hangs(n, p, n.depth) && n.depth + n.prefixLength == |n.full| && n.depth <= |k| && n.full[..n.depth] == k[..n.depth]
      requires n.full[..n.depth + pos] !in at && n.children != p.children
      modifies n`parent, n`depth, n`prefixLength, n`prefix, `root, dummy`root, p`kids, p.children, `at, `trie, `Repr
      ensures fresh(m) && fresh(m.bytes) && fresh(m.children) && m.tag == Node4 && m.count == 1
      ensures old(n.depth) + pos < |n.full| && m.full == n.full[..old(n.depth) + pos]
      ensures m !in old(Repr) && m.bytes !in old(Repr) && m.children !in old(Repr) ==> InterposedAt(n.full, m.full, m)
      ensures InterposedChild(n.full, m.full, m)
      ensures InterposedAbove(n.full, m.full, m)
      ensures Repr == old(Repr) + {m, m.bytes, m.children}
    {
      hide Node.Rep, StoresPrefix, Wired, Trie.Inhabited, Trie.Child;
      m := SplitRaw(n, p, k, pos);
      EnrolInterposed(n.full, p, m);
    }

    method SplitStep(n: Node, p: Node, k: Str, pos: nat) returns (m: Node)
      requires Wired() && Owned() && n.full in at && Placed(n.full)
      requires root != null && trie.Inhabited() && n.full in trie.inner && pos < n.prefixLength && length <= 0x1_0000
      requires Hangs(n, p, n.depth) && n.depth + n.prefixLength == |n.full| && n.depth <= |k| && n.full[..n.depth] == k[..n.depth]
      requires n.full[..n.depth + pos] !in at
      modifies n`parent, n`depth, n`prefixLength, n`prefix, `root, dummy`root, p`kids, p.children, `at, `trie, `Repr
      ensures fresh(m) && fresh(m.bytes) && fresh(m.children) && m.tag == Node4 && m.count == 1
      ensures old(n.depth) + pos < |n.full| && m.full == n.full[..old(n.depth) + pos]
      ensures Interposed(n.full, m.full, m)
      ensures Repr == old(Repr) + {m, m.bytes, m.children}
    {
      hide Node.Rep, StoresPrefix, InterposedAt, InterposedChild, InterposedAbove, Wired, Trie.Child, Trie.Inhabited, Extends;
      m := SplitBook(n, p, k, pos);
    }

    lemma SplitRoom(n: Node, pos: nat)
      requires Wired() && root != null && Live(n) && n.full in trie.inner && pos < n.prefixLength
      ensures AtDepth(n, n.depth) && n.depth + n.prefixLength == |n.full|
      ensures n.full[..n.depth + pos] !in at && n.depth + pos < |n.full|
    {
      hide Node.Rep, Trie.WF, LeafOk, Anchored, KidsOk;
      WiredAt(n.full);
      FreshName(n.full, n.depth + pos);
    }

    /** Splits the prefix of the inner node n at its byte pos; k agrees with the prefix before that byte. */
    method SplitPrefix(n: Node, k: Str, pos: nat) returns (m: Node)
      requires Wired() && root != null && trie.Inhabited() && Live(n) && n.full in trie.inner
      requires pos < n.prefixLength && length <= 0x1_0000 && n.depth <= |k| && n.full[..n.depth] == k[..n.depth]
      modifies Repr
      ensures Wired() && root != null && fresh(Repr - old(Repr)) && count == old(count)
      ensures old(n.depth) + pos < |n.full| && m.full == n.full[..old(n.depth) + pos]
      ensures m.tag == Node4 && m.count == 1 && m.kids.Keys == {n.full[|m.full|]}
      ensures old(n.parent) != null && trie == old(trie).Interpose(old(n.parent.full), n.full, |m.full|)
      ensures at == old(at)[m.full := m] && m.full !in old(at)
      ensures forall u :: u in trie.inner && u in old(trie.inner) && old(BandOk(u)) ==> BandOk(u)
      ensures BandOk(m.full) && m.full in trie.inner
    {
      hide Node.Rep, Trie.WF, LeafOk, ParentOk, KidsOk, Anchored, BandOk, Wired, KeptBut, PrefixOk, Owned, Hangs, Placed,
        InterposedChild, InterposedAbove, StoresPrefix, AtDepth;
      LiveKind(n);
      SplitRoom(n, pos);
      HangsReady(n, n.depth);
      WiredPlaced(n.full);
      WiredOwned();
      WiredTrie();
      ParentReady(n.full);
      LiveOwned(n);
      m := SplitStep(n, n.parent, k, pos);
      InterposedWired(n.full, m.full, m);
    }

    // ---- A one-child inner node folded into its child ----

    /** The one-child node named s is gone and its child c hangs in its place. */
    twostate predicate Contracted(new s: Str, new c: Str)
      reads *
    {
      && ContractedAt(s, c) && ContractedChild(s, c) && ContractedAbove(s, c)
      && KeptBut(old(AboveOf(s)) + {c})
    }

    twostate predicate ContractedAt(new s: Str, new c: Str)
      reads *
    {
      && s in old(at) && c in old(at) && s in old(trie.inner) && Extends(s, c) && old(at[s].parent) != null
      && old(trie.inner)[s] == map[c[|s|] := c]
      && (s != old(trie.root) ==> old(at[s].parent.full) in old(trie.inner) && Extends(old(at[s].parent.full), s))
      && at == old(at) - {s} && Repr == old(Repr)
      && trie == old(trie).Contract(old(at[s].parent.full), s, c)
    }

    twostate predicate ContractedChild(new s: Str, new c: Str)
      reads *
    {
      && s in old(at) && c in old(at) && old(at[s].parent) != null
      && old(at[c]).parent == old(at[s].parent) && SameKids(old(at[c]))
      && (c in old(trie.inner) ==>
            && old(at[c]).depth == (if s == old(trie.root) then 0 else |old(at[s].parent.full)| + 1)
            && StoresPrefix(old(at[c]).prefix, old(at[c]).depth, old(at[c]).prefixLength, c))
    }

    twostate predicate ContractedAbove(new s: Str, new c: Str)
      reads *
    {
      && s in old(at) && c in old(at) && old(at[s].parent) != null
      && Redirected(s, old(at[s].parent), old(at[c]))
      && (s != old(trie.root) ==>
            var p := old(at[s].parent); SameHeader(p) && p.parent == old(p.parent))
    }

    twostate lemma ContractedKids(new s: Str, new c: Str, new u: Str)
      requires old(Owned()) && Owned() && Contracted(s, c) && u in trie.inner && old(KidsOk(u))
      requires old(Placed(s))
      ensures KidsOk(u)
    {
      hide Node.Rep, SameHeader, StoresPrefix;
      if s != old(trie.root) && u == old(at[s].parent.full) {
        KidsSet(u, s[|u|], c);
      } else {
        KidsKept(u);
      }
    }

    twostate lemma ContractedParentChild(new s: Str, new c: Str)
      requires old(Owned()) && Owned() && Contracted(s, c) && old(ParentOk(s)) && (s != old(trie.root) ==> c != old(trie.root))
      ensures ParentOk(c)
    {
      hide Node.Rep, SameHeader, StoresPrefix, KeptBut;
    }

    twostate lemma ContractedParent(new s: Str, new c: Str, new u: Str)
      requires old(Owned()) && Owned() && Contracted(s, c) && u in at && u != c && old(ParentOk(u))
      requires old(Placed(s))
      ensures ParentOk(u)
    {
      hide Node.Rep, StoresPrefix;
    }

    twostate lemma ContractedPrefix(new s: Str, new c: Str, new u: Str)
      requires old(Owned()) && Owned() && Contracted(s, c) && u in trie.inner && u in at && old(PrefixOk(u))
      requires old(Placed(s))
      ensures PrefixOk(u)
    {
      hide Node.Rep;
    }

    twostate lemma ContractedBand(new s: Str, new c: Str, new u: Str)
      requires old(Owned()) && Owned() && Contracted(s, c) && u in trie.inner && u in at && old(BandOk(u)) && old(KidsOk(u))
      requires old(Placed(s))
      ensures BandOk(u)
    {
      hide StoresPrefix, Node.Sorted, Node.Indexed, Node.Direct;
    }

    twostate lemma ContractedLeaves(new s: Str, new c: Str)
      requires old(Owned()) && Owned() && Contracted(s, c) && old(at.Keys == trie.Nodes()) && s !in old(trie.keys)
      requires forall k :: k in old(trie.keys) ==> old(LeafOk(k))
      ensures forall k :: k in trie.keys ==> LeafOk(k)
      ensures at.Keys == trie.Nodes()
    {
      hide Node.Rep, StoresPrefix, KeptBut;
    }

    twostate lemma ContractedAnchored(new s: Str, new c: Str)
      requires old(Owned()) && Owned() && Contracted(s, c) && old(Anchored()) && old(root) != null
      requires trie.WF(length) && at.Keys == trie.Nodes()
      ensures Anchored() && root != null
    {
      hide Node.Rep, Trie.WF, StoresPrefix, SameKids, SameHeader;
    }

    twostate lemma ContractedOwned(new s: Str, new c: Str)
      requires old(Owned()) && ContractedAt(s, c)
      ensures Owned()
    {
    }

    twostate lemma ContractedTrie(new s: Str, new c: Str)
      requires old(Wired()) && old(root) != null && Contracted(s, c) && old(Placed(s))
      ensures trie.WF(length) && (s != old(trie.root) ==> c != old(trie.root))
    {
      hide Node.Rep, ParentOk, KidsOk, PrefixOk, LeafOk, BandOk, KeptBut, StoresPrefix, ContractedChild, ContractedAbove;
      ContractWF(old(trie), length, old(at[s].parent.full), s, c[|s|], c);
    }

    twostate lemma ContractedWired(new s: Str, new c: Str)
      requires old(Wired()) && old(root) != null && Contracted(s, c) && old(Placed(s))
      ensures Wired() && root != null
      ensures forall u :: u in trie.inner && old(BandOk(u)) ==> BandOk(u)
    {
      hide Node.Rep, ParentOk, KidsOk, PrefixOk, LeafOk, BandOk, Trie.WF, Anchored, KeptBut, Extends, StoresPrefix,
        SameKids, SameHeader, Redirected, ContractedChild, ContractedAbove;
      ContractedOwned(s, c);
      ContractedTrie(s, c);
      ContractedLeaves(s, c);
      ContractedAnchored(s, c);
      forall u | u in trie.inner ensures KidsOk(u) && PrefixOk(u) && (old(BandOk(u)) ==> BandOk(u)) {
        ContractedKids(s, c, u);
        ContractedPrefix(s, c, u);
        if old(BandOk(u)) { ContractedBand(s, c, u); }
      }
      forall u | u in at ensures ParentOk(u) {
        if u == c {
          ContractedParentChild(s, c);
        } else {
          ContractedParent(s, c, u);
        }
      }
    }

    /** compress_node_into_child for an inner child. */
    static method CompressNodeIntoChild(n: Node, c: Node)
      requires n.tag == Node4 && n.count == 1 && n.Rep() && c != n
      requires Extends(n.full, c.full) && n.kids == map[c.full[|n.full|] := c] && n.depth + n.prefixLength == |n.full|
        && c.depth == |n.full| + 1
      requires StoresPrefix(n.prefix, n.depth, n.prefixLength, n.full)
      requires StoresPrefix(c.prefix, c.depth, c.prefixLength, c.full)
      requires |n.prefix| == |c.prefix| == MAX_PREFIX_LENGTH && c.depth + c.prefixLength == |c.full| < 0x1_0000
      modifies c`parent, c`depth, c`prefixLength, c`prefix
      ensures c.parent == n.parent && c.depth == n.depth
      ensures StoresPrefix(c.prefix, c.depth, c.prefixLength, c.full)
    {
      hide StoresPrefix, Joined, Node.Indexed, Node.Direct;
      ghost var b := c.full[|n.full|];
      OnlyByte(n, b);
      JoinStores(n.prefix, n.depth, n.prefixLength, n.full, c.prefix, c.prefixLength, c.full);
      c.prefix := Joined(n.prefix, n.prefixLength, n.bytes[0], c.prefix);
      c.depth := n.depth;
      c.prefixLength := (c.prefixLength + n.prefixLength + 1) % 0x1_0000;
      c.parent := n.parent;
    }

    static lemma OnlyByte(n: Node, b: Byte)
      requires n.tag == Node4 && n.count == 1 && n.Rep() && b in n.kids
      ensures n.bytes.Length > 0 && n.children.Length > 0 && n.bytes[0] == b && n.children[0] == n.kids[b]
      ensures n.kids == map[b := n.kids[b]]
    {
      hide Node.Indexed, Node.Direct;
      assert b in n.bytes[..n.count];
      assert n.bytes[..n.count][0] == b && n.children[..n.count][0] == n.children[0];
      forall x | x in n.kids ensures x == b {
        assert x in n.bytes[..n.count];
      }
      assert n.kids.Keys == {b};
    }

    /** The only child of the one-child node n, and what folding n into it relies on. */
    ghost predicate Foldable(n: Node, c: Node)
      reads n, c, n.bytes, n.children
    {
      && n.tag == Node4 && n.count == 1 && n.Rep() && c != n
      && Extends(n.full, c.full) && n.kids == map[c.full[|n.full|] := c] && n.depth + n.prefixLength == |n.full|
      && StoresPrefix(n.prefix, n.depth, n.prefixLength, n.full)
      && (c.tag != Tag.Leaf ==>
            && c.depth == |n.full| + 1 && c.depth + c.prefixLength == |c.full| < 0x1_0000
            && StoresPrefix(c.prefix, c.depth, c.prefixLength, c.full))
    }

    /** The end of fix_after_erase for a Node4 left with one leaf, which shrink puts in its place. */
    method FoldLeaf(n: Node, p: Node, k: Str, c: Node)
      requires Hangs(n, p, n.depth) && Foldable(n, c) && Extends(n.full, k) && c != p && c.tag == Tag.Leaf
      modifies c`parent, `root, dummy`root, p`kids, p.children
      ensures c.parent == p && Redirected(n.full, p, c)
    {
      hide Node.Rep, StoresPrefix;
      c.parent := n.parent;
      UpdateChildPtr(c.parent, c, k);
    }

    /** The end of fix_after_erase for a Node4 left with one inner child, which absorbs its prefix and byte. */
    method FoldInner(n: Node, p: Node, k: Str, c: Node)
      requires Hangs(n, p, n.depth) && Foldable(n, c) && Extends(n.full, k) && c != p && c.tag != Tag.Leaf
        && n.children != p.children
      modifies c`parent, c`depth, c`prefixLength, c`prefix, `root, dummy`root, p`kids, p.children
      ensures c.parent == p && Redirected(n.full, p, c)
      ensures c.depth == n.depth && StoresPrefix(c.prefix, c.depth, c.prefixLength, c.full)
    {
      hide Node.Rep, StoresPrefix;
      UpdateChildPtr(n.parent, n, k);
      BufferSize(n);
      BufferSize(c);
      CompressNodeIntoChild(n, c);
      UpdateChildPtr(c.parent, c, k);
    }

    method FoldRaw(n: Node, p: Node, k: Str, ghost o: Node) returns (c: Node)
      requires Hangs(n, p, n.depth) && Foldable(n, o) && Extends(n.full, k) && o != p && n.children != p.children
      modifies o`parent, o`depth, o`prefixLength, o`prefix, `root, dummy`root, p`kids, p.children
      ensures c == o && c.parent == p && Redirected(n.full, p, c)
      ensures c.tag != Tag.Leaf ==> c.depth == n.depth && StoresPrefix(c.prefix, c.depth, c.prefixLength, c.full)
    {
      hide Node.Rep, StoresPrefix, Hangs, Redirected;
      OnlyByte(n, o.full[|n.full|]);
      c := n.children[0];
      if c.tag == Tag.Leaf {
        FoldLeaf(n, p, k, c);
      } else {
        FoldInner(n, p, k, c);
      }
    }

    static lemma BufferSize(n: Node)
      requires StoresPrefix(n.prefix, n.depth, n.prefixLength, n.full)
      ensures |n.prefix| == MAX_PREFIX_LENGTH
    {
    }

    method FoldBook(n: Node, p: Node, k: Str, ghost o: Node) returns (c: Node)
      requires Hangs(n, p, n.depth) && Foldable(n, o) && Extends(n.full, k) && o != p && n.children != p.children
      requires Live(o) && o.children != p.children && n.full in trie.inner
        && trie.inner[n.full] == map[o.full[|n.full|] := o.full]
      requires n.full != trie.root ==> Extends(p.full, n.full)
      requires o.full in trie.inner ==> o.tag != Tag.Leaf
      modifies o`parent, o`depth, o`prefixLength, o`prefix, `root, dummy`root, p`kids, p.children, `at, `trie
      ensures c == o && ContractedAt(n.full, o.full) && ContractedChild(n.full, o.full) && ContractedAbove(n.full, o.full)
    {
      hide Node.Rep, StoresPrefix, Foldable;
      FoldableParts(n, o);
      c := FoldRaw(n, p, k, o);
      trie := trie.Contract(p.full, n.full, c.full);
      at := at - {n.full};
    }

    lemma FoldableParts(n: Node, c: Node)
      requires Foldable(n, c)
      ensures Extends(n.full, c.full) && c != n
    {
    }

    method FoldStep(n: Node, p: Node, k: Str, ghost o: Node) returns (c: Node)
      requires Owned() && n.full in at && Placed(n.full) && Hangs(n, p, n.depth) && Foldable(n, o) && Extends(n.full, k) && o != p
      requires Live(o) && n.full in trie.inner && trie.inner[n.full] == map[o.full[|n.full|] := o.full]
      requires n.full != trie.root ==> Extends(p.full, n.full)
      requires o.full in trie.inner ==> o.tag != Tag.Leaf
      modifies o`parent, o`depth, o`prefixLength, o`prefix, `root, dummy`root, p`kids, p.children, `at, `trie
      ensures c == o && Contracted(n.full, o.full)
    {
      hide Node.Rep, StoresPrefix, Foldable, ContractedAt, ContractedChild, ContractedAbove;
      c := FoldBook(n, p, k, o);
    }

    /** The only child of a one-child node. */
    lemma OnlyChild(n: Node) returns (o: Node)
      requires Wired() && root != null && Live(n) && n.full in trie.inner && n.count == 1
      ensures Live(o) && Extends(n.full, o.full) && |o.full| <= length
      ensures n.kids == map[o.full[|n.full|] := o] && trie.inner[n.full] == map[o.full[|n.full|] := o.full]
      ensures o.parent == n
    {
      hide Wired, Node.Rep, Trie.WF, KidsOk;
      LiveKind(n);
      CountIsSize(n);
      var b := SingleKey(n.kids);
      LiveChild(n, b);
      o := n.kids[b];
      LinkedAt(n.full, o.full);
    }

    static lemma CountIsSize(n: Node)
      requires n.Rep()
      ensures n.count == |n.kids|
    {
    }

    static lemma SingleKey(kids: map<Byte, Node>) returns (b: Byte)
      requires |kids| == 1
      ensures b in kids && kids == map[b := kids[b]]
    {
      b :| b in kids;
      assert |kids.Keys - {b}| == 0;
      assert kids.Keys == {b};
    }

    lemma FoldReady(n: Node, o: Node)
      requires Wired() && root != null && Live(n) && n.full in trie.inner && n.count == 1 && n.tag == Node4
      requires Live(o) && Extends(n.full, o.full) && n.kids == map[o.full[|n.full|] := o] && length <= 0x1_0000 && o.parent == n
      requires trie.inner[n.full] == map[o.full[|n.full|] := o.full]
      ensures Foldable(n, o) && AtDepth(n, n.depth) && n.parent != null && o != n.parent
      ensures o.full in trie.inner ==> o.tag != Tag.Leaf
      ensures n.full != trie.root ==> Extends(n.parent.full, n.full)
    {
      hide Node.Rep, Anchored, Trie.WF;
      LiveKind(n);
      LiveKind(o);
      WiredAt(n.full);
      WiredAt(o.full);
      WiredTrie();
      if n.full != trie.root { ParentExtends(n.full); }
      if o.full in trie.inner { SplitReady(o); }
      SplitReady(n);
      RootAbove(n.full);
    }

    lemma RootAbove(s: Str)
      requires Wired() && root != null && s in at
      ensures trie.root <= s
    {
      hide Node.Rep, LeafOk, ParentOk, PrefixOk, KidsOk;
    }

    /** Folds the one-child node n into its child; the key k that was erased passed n. */
    method Fold(n: Node, k: Str) returns (c: Node)
      requires Wired() && root != null && Live(n) && n.full in trie.inner && n.tag == Node4 && n.count == 1
      requires Extends(n.full, k) && length <= 0x1_0000
      modifies Repr
      ensures Wired() && root != null && Repr == old(Repr) && count == old(count)
      ensures Live(c) && Extends(n.full, c.full) && old(trie).Child(n.full, c.full[|n.full|], c.full)
      ensures old(n.parent) != null && trie == old(trie).Contract(old(n.parent.full), n.full, c.full)
      ensures at == old(at) - {n.full}
      ensures forall u :: u in trie.inner && old(BandOk(u)) ==> BandOk(u)
    {
      hide Node.Rep, Trie.WF, LeafOk, ParentOk, KidsOk, Anchored, BandOk, Wired, KeptBut, PrefixOk, Owned, Hangs, Placed,
        ContractedChild, ContractedAbove, StoresPrefix, AtDepth, Foldable;
      ghost var o := OnlyChild(n);
      FoldReady(n, o);
      HangsReady(n, n.depth);
      WiredPlaced(n.full);
      WiredOwned();
      ParentReady(n.full);
      LiveOwned(n);
      LiveOwned(o);
      c := FoldStep(n, n.parent, k, o);
      ContractedWired(n.full, c.full);
    }

    // ---- The first and the last leaf ----

    /** Hangs the leaf of k below the dummy node of the empty tree. */
    method HangRoot(leaf: Node, k: Str)
      requires Wired() && root == null && |k| == length
      requires leaf !in Repr && leaf.bytes !in Repr && leaf.children !in Repr
      requires leaf.full == leaf.key == k && leaf.tag == Tag.Leaf && leaf.parent == dummy
      modifies `root, `count, `at, `trie, `Repr, dummy`root
      ensures Wired() && root == leaf && count == old(count) + 1 && dummy in Repr
      ensures trie == Trie(k, map[], {k}) && at == map[k := leaf]
      ensures Repr == old(Repr) + {leaf, leaf.bytes, leaf.children}
    {
      hide Node.Rep;
      root := leaf;
      count := count + 1;
      dummy.root := root;
      trie, at, Repr := Trie(k, map[], {k}), map[k := leaf], Repr + {leaf, leaf.bytes, leaf.children};
    }

    /** Deletes the root leaf; the dummy node keeps its stale pointer. */
    method UnhangRoot()
      requires Wired() && root != null && root.tag == Tag.Leaf && count > 0
      modifies `root, `count, `at, `trie
      ensures Wired() && root == null && count == old(count) - 1
      ensures trie == Trie([], map[], {}) && at == map[] && old(trie).keys == {old(root).full}
    {
      hide Node.Rep;
      OnlyLeaf();
      root := null;
      count := count - 1;
      trie, at := Trie([], map[], {}), map[];
    }

    /** Deletes every node; the dummy node keeps its stale pointer. */
    method Clear()
      requires Wired()
      modifies `root, `count, `at, `trie
      ensures Wired() && root == null && count == 0 && trie == Trie([], map[], {}) && at == map[]
    {
      hide Node.Rep;
      root := null;
      count := 0;
      trie, at := Trie([], map[], {}), map[];
    }

    lemma OnlyLeaf()
      requires Wired() && root != null && root.tag == Tag.Leaf
      ensures trie.keys == {root.full} && trie.inner == map[]
    {
      hide Node.Rep, PrefixOk, KidsOk, ParentOk;
      RootLive();
      LiveKind(root);
      forall s | s in trie.Nodes() ensures s == root.full {
        assert trie.root <= s && |s| <= length;
        PrefixEqual(trie.root, s);
      }
    }

    /** The prefix of a live inner node starts where its own bytes start. */
    lemma InnerDepth(n: Node)
      requires Wired() && root != null && Live(n) && n.full in trie.inner
      ensures AtDepth(n, n.depth) && n.depth + n.prefixLength == |n.full| < length && |n.prefix| == MAX_PREFIX_LENGTH
      ensures forall i :: 0 <= i < n.prefixLength && i < MAX_PREFIX_LENGTH ==> n.prefix[i] == n.full[n.depth + i]
    {
      hide Wired, Node.Rep;
      SplitReady(n);
      OwnDepth(n);
    }

    lemma OwnDepth(n: Node)
      requires Wired() && root != null && Live(n) && n.full in trie.inner
      ensures AtDepth(n, n.depth)
    {
      hide Node.Rep, Trie.WF, LeafOk, Anchored, KidsOk, PrefixOk;
      WiredAt(n.full);
    }
  }
}
