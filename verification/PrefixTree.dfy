/** ar_prefix_tree: the path-compressed adaptive radix tree. */
module PrefixTrees {
  import opened Bytes
  import opened Tries
  import opened Nodes
  import opened RadixTrees
  import opened Trees

  /** A sound tree whose trie branches at every inner node. */
  ghost predicate Valid(t: RadixTree)
    reads t, t.Repr
  {
    Sound(t) && t.trie.Compressed()
  }

  lemma CompressedInhabited(tr: Trie)
    requires tr.Compressed()
    ensures tr.Inhabited()
  {
    forall s | s in tr.inner ensures tr.Branches(s, 1) {
      assert tr.Branches(s, 2);
    }
  }

  // ---- Lookup ----

  /** The first stored prefix byte of n that k does not agree with; the whole prefix length if there is none. */
  method PesPrefixMismatchPos(n: Node, k: Str) returns (pos: nat)
    requires |n.prefix| == MAX_PREFIX_LENGTH && n.depth + n.prefixLength <= |k|
    ensures pos <= n.prefixLength
    ensures pos < n.prefixLength ==> pos < MAX_PREFIX_LENGTH && k[n.depth + pos] != n.prefix[pos]
    ensures forall i :: 0 <= i < pos && i < MAX_PREFIX_LENGTH ==> k[n.depth + i] == n.prefix[i]
  {
    pos := 0;
    while pos < Stored(n.prefixLength)
      invariant pos <= Stored(n.prefixLength)
      invariant forall i :: 0 <= i < pos ==> k[n.depth + i] == n.prefix[i]
    {
      if k[n.depth + pos] != n.prefix[pos] {
        return pos;
      }
      pos := pos + 1;
    }
    return n.prefixLength;
  }

  lemma SeekPast(t: RadixTree, n: Node, depth: nat, k: Str, pos: nat)
    requires t.Wired() && Seeking(t, n, depth, k) && n.full in t.trie.inner
    ensures n.depth == depth && depth + n.prefixLength == |n.full| < |k| && |n.prefix| == MAX_PREFIX_LENGTH
    ensures pos < n.prefixLength && pos < MAX_PREFIX_LENGTH && k[n.depth + pos] != n.prefix[pos] ==> k !in t.trie.keys
  {
    hide RadixTree.Wired, Node.Rep;
    t.InnerDepth(n);
    if k in t.trie.keys {
      assert forall i :: 0 <= i < |n.full| ==> k[i] == n.full[i];
    }
  }

  /** find: prefix bytes past the eighth are skipped and checked at the leaf only. */
  method Find(t: RadixTree, k: Str) returns (r: Node)
    requires Valid(t) && |k| == t.length
    ensures if k in t.trie.keys then k in t.at && r == t.at[k] && r != t.endLeaf else r == t.endLeaf
  {
    hide RadixTree.Wired, Node.Rep, Trie.WF, Sound, Seeking;
    SoundParts(t);
    if t.root == null {
      EmptyKeys(t);
      return t.endLeaf;
    }
    SeekRoot(t, k);
    var current: Node? := t.root;
    var depth := 0;
    while depth < t.length + 1
      invariant current == null ==> k !in t.trie.keys && depth <= t.length
      invariant current != null ==> Seeking(t, current, depth, k) && depth <= t.length
      decreases t.length + 1 - depth
    {
      if current == null {
        return t.endLeaf;
      }
      SeekKind(t, current, depth, k);
      if current.tag == Tag.Leaf {
        SeekLeaf(t, current, depth, k);
        if current.key == k {
          return current;
        }
        return t.endLeaf;
      }
      var pos := PesPrefixMismatchPos(current, k);
      SeekPast(t, current, depth, k, pos);
      if pos < current.prefixLength {
        return t.endLeaf;
      }
      depth := depth + pos;
      SeekChild(t, current, depth - pos, k);
      current := current.Find(k[depth]);
      depth := depth + 1;
    }
    assert false;
  }

  // ---- Insertion ----

  /** The first mismatch of k with the whole prefix; bytes past the eighth are read from the least leaf. */
  method PrefixMismatchPos(t: RadixTree, n: Node, k: Str) returns (pos: nat)
    requires t.Wired() && t.trie.Inhabited() && n.full in t.trie.inner && Arrived(t, n, n.depth, k)
    ensures pos <= n.prefixLength && n.depth + n.prefixLength == |n.full| < |k|
    ensures n.full[..n.depth + pos] == k[..n.depth + pos]
    ensures pos < n.prefixLength ==> k[n.depth + pos] != n.full[n.depth + pos]
  {
    hide RadixTree.Wired, Node.Rep;
    t.InnerDepth(n);
    pos := 0;
    while pos < Stored(n.prefixLength)
      invariant pos <= Stored(n.prefixLength)
      invariant n.full[..n.depth + pos] == k[..n.depth + pos]
    {
      if k[n.depth + pos] != n.prefix[pos] {
        return pos;
      }
      pos := pos + 1;
    }
    if n.prefixLength > MAX_PREFIX_LENGTH {
      var min := t.Minimum(n);
      while pos < n.prefixLength
        invariant pos <= n.prefixLength
        invariant n.full[..n.depth + pos] == k[..n.depth + pos]
      {
        if k[n.depth + pos] != min.key[n.depth + pos] {
          return pos;
        }
        pos := pos + 1;
      }
    }
    return n.prefixLength;
  }

  /** The absent key k belongs below the inner node n, the only one that may lack a second child. */
  ghost predicate Gap(t: RadixTree, n: Node, k: Str)
    reads t, t.Repr, n
  {
    Open(t, n, k) && t.trie.CompressedBut(n.full)
  }

  /** Filling the gap compresses the whole trie. */
  lemma HangCompressed(tr: Trie, s: Str, k: Str)
    requires tr.Inhabited() && tr.CompressedBut(s) && s in tr.inner && Extends(s, k) && k[|s|] !in tr.inner[s]
    ensures tr.Hang(s, k).Compressed()
  {
    var tr' := tr.Hang(s, k);
    assert tr.Branches(s, 1);
    assert tr'.inner[s].Keys == tr.inner[s].Keys + {k[|s|]};
    forall u | u in tr'.inner ensures tr'.Branches(u, 2) {
      if u != s { assert tr.Branches(u, 2); }
    }
  }

  /** insert_leaf into the gap. */
  method FillGap(t: RadixTree, n: Node, leaf: Node, k: Str)
    requires Gap(t, n, k) && n.count < MaxSize(n.tag)
    requires leaf !in t.Repr && leaf.bytes !in t.Repr && leaf.children !in t.Repr
    requires leaf.full == leaf.key == k && leaf.tag == Tag.Leaf && leaf.parent == n
    modifies t.Repr
    ensures Valid(t) && t.Repr == old(t.Repr) + {leaf, leaf.bytes, leaf.children}
    ensures t.at == old(t.at)[k := leaf] && k !in old(t.trie.keys) && t.count == old(t.count) + 1
    ensures t.trie.keys == old(t.trie.keys) + {k}
  {
    hide RadixTree.Wired, Node.Rep, Trie.WF, RadixTree.BandOk, Sound, Open, Trie.Inhabited, Trie.Compressed, Trie.CompressedBut;
    OpenTrie(t, n, k);
    PutLeaf(t, n, leaf, k);
    HangCompressed(old(t.trie), n.full, k);
  }

  lemma NoInner(tr: Trie)
    requires tr.inner == map[]
    ensures tr.Compressed()
  {
  }

  lemma OpenTrie(t: RadixTree, n: Node, k: Str)
    requires Open(t, n, k)
    ensures t.trie.Inhabited() && n.full in t.trie.inner && Extends(n.full, k) && k[|n.full|] !in t.trie.inner[n.full]
  {
    hide RadixTree.Wired, RadixTree.BandOk;
  }

  /** A one-child node above c is the only one that may lack a second child. */
  lemma InterposeCompressed(tr: Trie, p: Str, c: Str, n: nat)
    requires tr.Compressed() && n < |c|
    requires c == tr.root || (|p| < |c| && tr.Child(p, c[|p|], c))
    requires c[..n] !in tr.Nodes()
    ensures tr.Interpose(p, c, n).Inhabited() && tr.Interpose(p, c, n).CompressedBut(c[..n])
  {
    var tr' := tr.Interpose(p, c, n);
    forall u | u in tr'.inner ensures tr'.Branches(u, 1) && (u != c[..n] ==> tr'.Branches(u, 2)) {
      if u != c[..n] {
        assert tr.Branches(u, 2);
        if c != tr.root && u == p { assert tr'.inner[p].Keys == tr.inner[p].Keys; }
      }
    }
  }

  twostate lemma NotANode(t: RadixTree, new s: Str)
    requires old(Sound(t)) && s !in old(t.at)
    ensures s !in old(t.trie).Nodes()
  {
    hide RadixTree.Anchored, RadixTree.LeafOk, RadixTree.KidsOk, RadixTree.PrefixOk, RadixTree.ParentOk, Node.Rep;
  }

  twostate lemma Forked(t: RadixTree, new p: Str, new c: Str, new n: nat, new m: Node, new k: Str)
    requires old(Valid(t) && t.root != null && c in t.at)
    requires c == old(t.trie.root) || (|p| < |c| && old(t.trie).Child(p, c[|p|], c))
    requires n < |c| && n < |k| == t.length && c[..n] == k[..n] && c[n] != k[n]
    requires t.Wired() && t.root != null && t.count == old(t.count) && t.Live(m) && m.tag == Node4 && m.full == c[..n]
    requires m.full !in old(t.at)
    requires t.trie == old(t.trie).Interpose(p, c, n)
    requires forall u :: u in t.trie.inner && u in old(t.trie.inner) && old(t.BandOk(u)) ==> t.BandOk(u)
    ensures Gap(t, m, k)
  {
    hide RadixTree.Wired, Node.Rep, Trie.WF, RadixTree.BandOk, Trie.Inhabited, Trie.Compressed, Trie.CompressedBut, Sound, Open;
    NotANode(t, m.full);
    InterposeCompressed(old(t.trie), p, c, n);
    Forks(t, p, c, n, m, k);
  }

  /** The first byte from depth on where two different keys of the same size differ. */
  method TiebreakPos(k: Str, existing: Str, depth: nat) returns (j: nat)
    requires |k| == |existing| && depth <= |k| && k != existing && existing[..depth] == k[..depth]
    ensures depth <= j < |k| && existing[..j] == k[..j] && existing[j] != k[j]
  {
    WholePrefix(existing, k, depth);
    j := depth;
    while j < |k|
      invariant depth <= j <= |k| && existing[..j] == k[..j]
      invariant j == |k| ==> existing == k
    {
      if k[j] != existing[j] {
        return;
      }
      j := j + 1;
      WholePrefix(existing, k, j);
    }
    assert false;
  }

  /** Puts a one-child node above the leaf e, at the first byte where its key and k differ. */
  method Tiebreak(t: RadixTree, e: Node, k: Str, depth: nat) returns (inner: Node)
    requires Valid(t) && t.root != null && Arrived(t, e, depth, k) && e.tag == Tag.Leaf && e.key != k
    modifies t.Repr
    ensures Gap(t, inner, k) && inner.count < MaxSize(inner.tag) && fresh(t.Repr - old(t.Repr))
    ensures KeysKept(t)
  {
    hide RadixTree.Wired, Node.Rep, Trie.WF, Open, RadixTree.BandOk, Sound, Trie.Compressed, Trie.CompressedBut, KeysKept;
    SoundParts(t);
    ArrivedKind(t, e, depth, k);
    ParentChild(t, e.full);
    KeysLive(t);
    ghost var p := e.parent.full;
    var j := TiebreakPos(k, e.key, depth);
    inner := t.ForkLeaf(e, k, depth, j);
    Forked(t, p, e.full, j, inner, k);
    KeysKeptBy(t, inner);
  }

  /** Splits n's prefix where it first differs from k, if it does. */
  method SplitOnMismatch(t: RadixTree, n: Node, k: Str, depth: nat) returns (m: Node, pos: nat)
    requires Valid(t) && t.root != null && Arrived(t, n, depth, k) && n.full in t.trie.inner
    modifies t.Repr
    ensures depth + pos == |m.full| < |k| && m.full == k[..depth + pos] && m.Rep()
    ensures k[|m.full|] in m.kids ==> m == n && Valid(t) && t.root != null && Arrived(t, n, depth, k) && n.full in t.trie.inner
    ensures k[|m.full|] in m.kids ==> Arrived(t, m.kids[k[|m.full|]], |m.full| + 1, k)
    ensures k[|m.full|] !in m.kids ==> Gap(t, m, k)
    ensures t.root != null && KeysKept(t) && fresh(t.Repr - old(t.Repr))
  {
    hide RadixTree.Wired, Node.Rep, Trie.WF, Open, RadixTree.BandOk, Sound, Trie.Compressed, Trie.CompressedBut, KeysKept;
    SoundParts(t);
    ArrivedKind(t, n, depth, k);
    ParentChild(t, n.full);
    KeysLive(t);
    pos := PrefixMismatchPos(t, n, k);
    m := n;
    if pos < n.prefixLength {
      ghost var p := n.parent.full;
      m := t.SplitPrefix(n, k, pos);
      Forked(t, p, n.full, |m.full|, m, k);
      OpenParts(t, m, k);
      KeysKeptBy(t, m);
    } else {
      Unsplit(t, n, depth, k);
      NothingMoved(t);
    }
  }

  lemma Unsplit(t: RadixTree, n: Node, depth: nat, k: Str)
    requires Valid(t) && t.root != null && Arrived(t, n, depth, k) && n.full in t.trie.inner
    requires |n.full| < |k| && n.full == k[..|n.full|]
    ensures k[|n.full|] in n.kids ==> Arrived(t, n.kids[k[|n.full|]], |n.full| + 1, k)
    ensures k[|n.full|] !in n.kids ==> Gap(t, n, k)
  {
    hide RadixTree.Wired, Node.Rep, Trie.WF, Open, Sound;
    SoundParts(t);
    if k[|n.full|] in n.kids {
      ArriveChild(t, n, depth, k);
    } else {
      OpenHere(t, n, k);
    }
  }

  /** Hangs a new leaf of k below n, which is grown first if it is full. */
  method InsertInGap(t: RadixTree, n: Node, k: Str, v: Value) returns (r: Node)
    requires Gap(t, n, k)
    modifies t.Repr
    ensures Valid(t) && fresh(t.Repr - old(t.Repr)) && fresh(r) && r.value == v && Added(t, k, r)
  {
    hide RadixTree.Wired, Node.Rep, Trie.WF, RadixTree.BandOk, Sound, Open, Trie.Inhabited, Trie.Compressed, Trie.CompressedBut,
      SameLeaves;
    OpenTrie(t, n, k);
    r := InsertBelow(t, n, k, v);
    HangCompressed(old(t.trie), n.full, k);
  }

  /** Forks the leaf e and hangs a new leaf of k beside it. */
  method InsertBeside(t: RadixTree, e: Node, k: Str, v: Value, depth: nat) returns (r: Node)
    requires Valid(t) && t.root != null && Arrived(t, e, depth, k) && e.tag == Tag.Leaf && e.key != k
    modifies t.Repr
    ensures Valid(t) && fresh(t.Repr - old(t.Repr)) && fresh(r) && r.value == v && Added(t, k, r)
  {
    hide RadixTree.Wired, Node.Rep, Trie.WF, Open, RadixTree.BandOk, Sound, Trie.Compressed, Trie.CompressedBut, SameLeaves;
    var inner := Tiebreak(t, e, k, depth);
    OpenKeys(t, inner, k);
    r := new Node.Leaf(k, v, inner);
    SameLeavesUpdate(t.trie.keys, old(t.at), t.at, k, r);
    FillGap(t, inner, r, k);
  }

  /** Where the descent stands: at a live node, or past the node previous that lacks the byte of k. */
  ghost predicate Descending(t: RadixTree, previous: Node, current: Node?, depth: nat, k: Str)
    reads t, t.Repr, previous, if current == null then {} else {current}
  {
    if current == null then Gap(t, previous, k) && depth == |previous.full| + 1
    else Valid(t) && t.root != null && Arrived(t, current, depth, k)
  }

  /** One turn of the loop at an inner node. */
  method Descend(t: RadixTree, n: Node, k: Str, depth: nat) returns (previous: Node, current: Node?, d: nat)
    requires Valid(t) && t.root != null && Arrived(t, n, depth, k) && n.full in t.trie.inner
    modifies t.Repr
    ensures t.root != null && Descending(t, previous, current, d + 1, k) && depth <= d < t.length
    ensures KeysKept(t) && fresh(t.Repr - old(t.Repr))
  {
    hide RadixTree.Wired, Node.Rep, Trie.WF, Open, RadixTree.BandOk, Sound, Trie.Compressed, Trie.CompressedBut, KeysKept;
    var pos;
    previous, pos := SplitOnMismatch(t, n, k, depth);
    d := depth + pos;
    current := previous.Find(k[d]);
  }

  /** insert_unique: the first value of a key wins. */
  method Insert(t: RadixTree, k: Str, v: Value) returns (r: Node, inserted: bool)
    requires Valid(t) && |k| == t.length
    modifies t.Repr
    ensures Valid(t) && fresh(t.Repr - old(t.Repr))
    ensures inserted <==> k !in old(t.trie.keys)
    ensures inserted ==> fresh(r) && r.value == v && Added(t, k, r)
    ensures !inserted ==> k in t.at && r == t.at[k] && KeysKept(t)
    ensures Contents(t) == if inserted then old(Contents(t))[k := v] else old(Contents(t))
  {
    hide RadixTree.Wired, Node.Rep, Trie.WF, Open, RadixTree.BandOk, Sound, Trie.Compressed, Trie.CompressedBut,
      SameLeaves, Arrived, Contents;
    SoundParts(t);
    if t.root == null {
      r := InsertFirst(t, k, v);
      NoInner(t.trie);
      AddedContents(t, k, r);
      return r, true;
    }
    var current: Node? := t.root;
    var previous: Node := t.dummy;
    var depth := 0;
    ArriveRoot(t, k);
    KeysLive(t);
    NothingMoved(t);
    while depth < t.length + 1
      invariant depth <= t.length && t.root != null && Descending(t, previous, current, depth, k)
      invariant KeysKept(t) && fresh(t.Repr - old(t.Repr))
      decreases t.length + 1 - depth
    {
      if current != null {
        SoundParts(t);
        ArrivedKind(t, current, depth, k);
        if current.tag == Tag.Leaf {
          if current.key == k {
            KeptContents(t);
            return current, false;
          }
          ghost var at1 := t.at;
          r := InsertBeside(t, current, k, v, depth);
          SameLeavesTrans(old(t.trie.keys), old(t.at), at1, t.at);
          AddedContents(t, k, r);
          return r, true;
        } else {
          ghost var at1 := t.at;
          previous, current, depth := Descend(t, current, k, depth);
          SameLeavesTrans(old(t.trie.keys), old(t.at), at1, t.at);
        }
      } else {
        ghost var at1 := t.at;
        r := InsertInGap(t, previous, k, v);
        SameLeavesTrans(old(t.trie.keys), old(t.at), at1, t.at);
        AddedContents(t, k, r);
        return r, true;
      }
      depth := depth + 1;
    }
    assert false;
  }

  /** get_insert_unique_pos */
  method GetInsertUniquePos(t: RadixTree, k: Str) returns (n: Node)
    requires Valid(t) && |k| == t.length
    modifies t.Repr
    ensures InsertPos(t, n, k) && KeysKept(t) && fresh(t.Repr - old(t.Repr))
    ensures if IsInner(n.tag) then t.trie.CompressedBut(n.full) else t.trie.Compressed()
  {
    hide RadixTree.Wired, Node.Rep, Trie.WF, Open, RadixTree.BandOk, Sound, Trie.Compressed, Trie.CompressedBut,
      SameLeaves, Arrived;
    SoundParts(t);
    t.DummyKind();
    KeysLive(t);
    NothingMoved(t);
    if t.root == null {
      return t.dummy;
    }
    var current: Node? := t.root;
    var previous: Node := t.dummy;
    var depth := 0;
    ArriveRoot(t, k);
    while depth < t.length + 1
      invariant depth <= t.length && t.root != null && Descending(t, previous, current, depth, k)
      invariant KeysKept(t) && fresh(t.Repr - old(t.Repr))
      decreases t.length + 1 - depth
    {
      ghost var at1 := t.at;
      if current != null {
        SoundParts(t);
        ArrivedKind(t, current, depth, k);
        if current.tag == Tag.Leaf {
          if current.key == k {
            return current;
          }
          n := Tiebreak(t, current, k, depth);
          OpenParts(t, n, k);
          SameLeavesTrans(old(t.trie.keys), old(t.at), at1, t.at);
          return n;
        } else {
          previous, current, depth := Descend(t, current, k, depth);
          SameLeavesTrans(old(t.trie.keys), old(t.at), at1, t.at);
        }
      } else {
        n := MakeRoom(t, previous, k);
        OpenParts(t, n, k);
        SameLeavesTrans(old(t.trie.keys), old(t.at), at1, t.at);
        return n;
      }
      depth := depth + 1;
    }
    assert false;
  }

  lemma InsertPosTrie(t: RadixTree, n: Node, k: Str)
    requires InsertPos(t, n, k) && k !in t.trie.keys
    ensures t.root != null ==> IsInner(n.tag) && t.trie.Inhabited() && n.full in t.trie.inner
    ensures t.root != null ==> Extends(n.full, k) && k[|n.full|] !in t.trie.inner[n.full]
  {
    hide RadixTree.Wired, RadixTree.BandOk, Open, Sound, Trie.Inhabited;
    if t.root != null { OpenTrie(t, n, k); }
  }

  /** emplace_unique: the leaf is built first and dropped if its key is already stored. */
  method Emplace(t: RadixTree, k: Str, v: Value) returns (r: Node, inserted: bool)
    requires Valid(t) && |k| == t.length
    modifies t.Repr
    ensures Valid(t) && fresh(t.Repr - old(t.Repr))
    ensures inserted <==> k !in old(t.trie.keys)
    ensures inserted ==> fresh(r) && r.value == v && Added(t, k, r)
    ensures !inserted ==> k in t.at && r == t.at[k] && KeysKept(t)
    ensures Contents(t) == if inserted then old(Contents(t))[k := v] else old(Contents(t))
  {
    hide RadixTree.Wired, Node.Rep, Trie.WF, Open, RadixTree.BandOk, Sound, Trie.Compressed, Trie.CompressedBut,
      SameLeaves, InsertPos, Contents;
    var leaf := new Node.Leaf(k, v, null);
    var node := GetInsertUniquePos(t, k);
    InsertPosTag(t, node, k);
    if node.tag != Tag.Leaf {
      ghost var at1, tr1, first := t.at, t.trie, t.root == null;
      InsertPosTrie(t, node, k);
      InsertLeaf(t, node, leaf, k);
      if first { NoInner(t.trie); } else { HangCompressed(tr1, node.full, k); }
      SameLeavesTrans(old(t.trie.keys), old(t.at), at1, t.at);
      AddedContents(t, k, leaf);
      return leaf, true;
    }
    KeptContents(t);
    return node, false;
  }

  // ---- Erasure ----

  /** Contracting the one-way node compresses the whole trie. */
  lemma ContractCompressed(tr: Trie, p: Str, s: Str, c: Str)
    requires tr.CompressedBut(s) && s in tr.inner
    requires s == tr.root || (|p| < |s| && tr.Child(p, s[|p|], s))
    ensures tr.Contract(p, s, c).Compressed()
  {
    var tr' := tr.Contract(p, s, c);
    forall u | u in tr'.inner ensures tr'.Branches(u, 2) {
      assert tr.Branches(u, 2);
      if s != tr.root && u == p { assert tr'.inner[p].Keys == tr.inner[p].Keys; }
    }
  }

  lemma DrainedCompressed(t: RadixTree, n: Node, k: Str)
    requires Drained(t, n, k) && MinSize(n.tag) <= n.count && t.trie.CompressedBut(n.full)
    ensures t.trie.Compressed()
  {
    hide RadixTree.Wired, Trie.WF, Node.Sorted, Node.Indexed, Node.Direct, RadixTree.BandOk;
    DrainedParts(t, n, k);
    t.LiveKind(n);
    forall s | s in t.trie.inner ensures t.trie.Branches(s, 2) {
      assert n.kids.Keys == t.trie.inner[n.full].Keys;
      assert |n.kids| == |n.kids.Keys| && |t.trie.inner[n.full]| == |t.trie.inner[n.full].Keys|;
    }
  }

  /** fix_after_erase: a node too small for its layout shrinks, a one-way node is folded into its child. */
  method FixAfterErase(t: RadixTree, n: Node, k: Str)
    requires Drained(t, n, k) && t.trie.CompressedBut(n.full)
    modifies t.Repr
    ensures Valid(t) && KeysKept(t) && fresh(t.Repr - old(t.Repr))
  {
    hide RadixTree.Wired, Node.Rep, Trie.WF, Drained, RadixTree.BandOk, RadixTree.Resized, SameLeaves, Sound,
      Trie.Compressed, Trie.CompressedBut;
    DrainedParts(t, n, k);
    if n.count < MinSize(n.tag) {
      if n.tag == Node4 {
        ParentChild(t, n.full);
        ghost var p := n.parent.full;
        var c := t.Fold(n, k);
        SameLeavesRemove(t.trie.keys, old(t.at), old(t.at), n.full);
        Folded(t, n.full, p, c.full, k);
        ContractCompressed(old(t.trie), p, n.full, c.full);
      } else {
        var m := t.Resize(n, k, false);
        SameLeavesUpdate(t.trie.keys, old(t.at), old(t.at), n.full, m);
        Shrunk(t, n.full, m, k);
        DrainedFits(t, m, k);
        DrainedCompressed(t, m, k);
      }
    } else {
      DrainedFits(t, n, k);
      DrainedCompressed(t, n, k);
    }
  }

  lemma CompressedBranches(tr: Trie, s: Str)
    requires tr.Compressed() && s in tr.inner
    ensures tr.Branches(s, 2)
  {
  }

  /** Taking a key away from a compressed trie leaves at most one one-way node. */
  lemma UnhangCompressed(tr: Trie, s: Str, k: Str)
    requires tr.Compressed() && s in tr.inner && |s| < |k|
    ensures tr.Unhang(s, k).CompressedBut(s)
  {
    var tr' := tr.Unhang(s, k);
    forall u | u in tr'.inner && u != s ensures tr'.Branches(u, 2) {
      assert tr.Branches(u, 2);
    }
  }

  /** Erases the leaf of k from the inner node n and repairs n. */
  method EraseBelow(t: RadixTree, n: Node, k: Str)
    requires Valid(t) && t.root != null && t.Live(n) && n.full in t.trie.inner && k in t.trie.keys && k in t.at
      && t.at[k].parent == n
    modifies t.Repr
    ensures Valid(t) && Removed(t, k) && fresh(t.Repr - old(t.Repr))
  {
    hide RadixTree.Wired, Node.Rep, Trie.WF, Drained, RadixTree.BandOk, SameLeaves, Sound;
    UnhangParts(t, n, k);
    SameLeavesRemove(t.trie.keys, t.at, t.at, k);
    CompressedBranches(t.trie, n.full);
    t.UnhangLeaf(n, k);
    UnhangCompressed(old(t.trie), n.full, k);
    Drains(t, n.full, k);
    ghost var at1 := t.at;
    FixAfterErase(t, n, k);
    SameLeavesTrans(t.trie.keys, old(t.at), at1, t.at);
  }

  /** The descent of erase_unique: the inner node above the leaf of k, or null if k is not stored. */
  method AboveLeaf(t: RadixTree, k: Str) returns (n: Node?)
    requires Valid(t) && |k| == t.length && t.root != null && t.root.tag != Tag.Leaf
    ensures n == null ==> k !in t.trie.keys
    ensures n != null ==>
      k in t.trie.keys && k in t.at && t.Live(n) && n.full in t.trie.inner && t.at[k].parent == n
  {
    hide RadixTree.Wired, Node.Rep, Trie.WF, RadixTree.BandOk, SameLeaves, Sound, Arrived, Seeking;
    SoundParts(t);
    t.RootLive();
    t.LiveKind(t.root);
    var current: Node := t.root;
    ArriveRoot(t, k);
    SeekRoot(t, k);
    var depth := 0;
    while depth < t.length
      invariant depth < t.length && Arrived(t, current, depth, k) && Seeking(t, current, depth, k)
      invariant current.full in t.trie.inner
      decreases t.length - depth
    {
      ArrivedKind(t, current, depth, k);
      var pos := PrefixMismatchPos(t, current, k);
      if pos < current.prefixLength {
        SeekMismatch(t, current, depth, k, depth + pos);
        return null;
      }
      depth := depth + pos;
      var child := current.Find(k[depth]);
      SeekChild(t, current, depth - pos, k);
      if child == null {
        return null;
      }
      ArriveChild(t, current, depth - pos, k);
      ArrivedKind(t, child, depth + 1, k);
      if child.tag == Tag.Leaf {
        SeekLeaf(t, child, depth + 1, k);
        if child.key == k {
          ChildParent(t, current, k[depth]);
          return current;
        } else {
          return null;
        }
      } else {
        current := child;
      }
      depth := depth + 1;
    }
    assert false;
  }

  /** erase_unique */
  method EraseKey(t: RadixTree, k: Str) returns (erased: nat)
    requires Valid(t) && |k| == t.length
    modifies t.Repr
    ensures Valid(t) && fresh(t.Repr - old(t.Repr))
    ensures if k in old(t.trie.keys) then erased == 1 && Removed(t, k) else erased == 0 && KeysKept(t)
    ensures Contents(t) == old(Contents(t)) - {k}
  {
    hide RadixTree.Wired, Node.Rep, Trie.WF, RadixTree.BandOk, SameLeaves, Sound, Contents;
    SoundParts(t);
    KeysLive(t);
    NothingMoved(t);
    UnstoredContents(t, k);
    if t.root == null {
      EmptyKeys(t);
      return 0;
    }
    if t.root.tag == Tag.Leaf {
      t.OnlyLeaf();
      t.RootLive();
      t.LiveKind(t.root);
      if t.root.key == k {
        EraseRoot(t);
        NoInner(t.trie);
        RemovedContents(t, k);
        return 1;
      }
      return 0;
    }
    var n := AboveLeaf(t, k);
    if n == null {
      return 0;
    }
    EraseBelow(t, n, k);
    RemovedContents(t, k);
    return 1;
  }

  /** erase(iterator): erases the leaf and returns its successor, which stays where it is. */
  method EraseAt(t: RadixTree, leaf: Node) returns (r: Node)
    requires Valid(t) && t.Position(leaf) && leaf != t.endLeaf
    modifies t.Repr
    ensures Valid(t) && fresh(t.Repr - old(t.Repr)) && Removed(t, leaf.key) && t.Position(r)
    ensures Contents(t) == old(Contents(t)) - {leaf.key}
    ensures if r == t.endLeaf then forall j :: j in t.trie.keys ==> !Less(leaf.key, j)
            else r.full in t.trie.keys && IsNext(old(t.trie.keys), leaf.key, r.full)
  {
    hide RadixTree.Wired, Node.Rep, Trie.WF, RadixTree.BandOk, Sound, IsNext, SameLeaves, Contents;
    SoundParts(t);
    r := t.Increment(leaf);
    AboveIsInner(t, leaf);
    if r != t.endLeaf {
      NextKey(t, leaf.key, r);
    }
    if leaf == t.root {
      EraseRoot(t);
      NoInner(t.trie);
    } else {
      EraseBelow(t, leaf.parent, leaf.key);
    }
    RemovedContents(t, leaf.key);
    RemovedParts(t, leaf.key);
    if r != t.endLeaf {
      StillThere(t, r.full, leaf.key);
    }
  }
}
