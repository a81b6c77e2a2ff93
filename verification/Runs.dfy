/** Whole runs of either tree against a plain map. */
module Runs {
  import opened Bytes
  import opened Tries
  import opened Nodes
  import opened RadixTrees
  import opened Trees
  import P = PrefixTrees
  import A = ArTrees
  import S = Shapes

  datatype Op =
    | Insert(key: Str, value: Value)
    | Emplace(key: Str, value: Value)
    | EraseKey(key: Str)
    | EraseFound(key: Str)
    | Clear

  /** What one operation does to the map: the first value of a key wins. */
  function Apply(m: map<Str, Value>, op: Op): map<Str, Value> {
    match op
    case Insert(k, v) => if k in m then m else m[k := v]
    case Emplace(k, v) => if k in m then m else m[k := v]
    case EraseKey(k) => m - {k}
    case EraseFound(k) => m - {k}
    case Clear => map[]
  }

  function ApplyAll(m: map<Str, Value>, ops: seq<Op>): map<Str, Value> {
    if |ops| == 0 then m else Apply(ApplyAll(m, ops[..|ops| - 1]), ops[|ops| - 1])
  }

  predicate Keyed(ops: seq<Op>, length: nat) {
    forall i :: 0 <= i < |ops| ==> ops[i].Clear? || |ops[i].key| == length
  }

  method Step(t: RadixTree, op: Op)
    requires P.Valid(t) && (op.Clear? || |op.key| == t.length)
    modifies t.Repr
    ensures P.Valid(t) && fresh(t.Repr - old(t.Repr)) && Contents(t) == Apply(old(Contents(t)), op)
  {
    hide Sound, Trie.Compressed, Contents;
    StoredKeys(t);
    match op {
      case Insert(k, v) =>
        var r, inserted := P.Insert(t, k, v);
      case Emplace(k, v) =>
        var r, inserted := P.Emplace(t, k, v);
      case EraseKey(k) =>
        var n := P.EraseKey(t, k);
      case EraseFound(k) =>
        var it := P.Find(t, k);
        if it != t.endLeaf {
          FoundPosition(t, k);
          it := P.EraseAt(t, it);
        } else {
          UnstoredContents(t, k);
        }
      case Clear =>
        Trees.Clear(t);
        P.NoInner(t.trie);
    }
  }

  lemma StoredKeys(t: RadixTree)
    requires Sound(t)
    ensures Contents(t).Keys == t.trie.keys
  {
    hide Sound;
    ContentsKeys(t);
  }

  lemma FoundPosition(t: RadixTree, k: Str)
    requires Sound(t) && k in t.trie.keys && k in t.at
    ensures t.Position(t.at[k]) && t.at[k].key == k
  {
    hide RadixTree.Wired, Node.Rep, Trie.WF, Sound;
    SoundParts(t);
    if t.root == null { EmptyKeys(t); }
    LeafAt(t, k);
  }

  lemma LeafAt(t: RadixTree, k: Str)
    requires t.Wired() && k in t.trie.keys
    ensures k in t.at && t.at[k].full == k && t.at[k].tag == Tag.Leaf && t.at[k].key == k
  {
    hide Node.Rep, RadixTree.Anchored, RadixTree.KidsOk, RadixTree.PrefixOk, RadixTree.ParentOk;
    assert t.LeafOk(k);
  }

  lemma EmptyValid(t: RadixTree)
    requires t.Wired() && t.Banded({}) && t.root == null && t.count == 0 && 0 < t.length <= 0x1_0000
    ensures P.Valid(t) && A.Valid(t) && Contents(t) == map[]
  {
    hide RadixTree.Wired, Node.Rep, RadixTree.BandOk;
    EmptyKeys(t);
    P.NoInner(t.trie);
    A.NoInner(t.trie);
    assert t.trie.Inhabited();
  }

  /** Every run from the empty prefix tree keeps the compression invariant and agrees with the map. */
  method Run(length: nat, ops: seq<Op>) returns (t: RadixTree)
    requires 0 < length <= 0x1_0000 && Keyed(ops, length)
    ensures P.Valid(t) && t.length == length && fresh(t.Repr) && Contents(t) == ApplyAll(map[], ops)
  {
    hide Sound, Trie.Compressed, Apply;
    t := new RadixTree(length);
    EmptyValid(t);
    for i := 0 to |ops|
      invariant P.Valid(t) && fresh(t.Repr) && Contents(t) == ApplyAll(map[], ops[..i])
    {
      assert ops[..i + 1][..i] == ops[..i];
      Step(t, ops[i]);
    }
    assert ops[..|ops|] == ops;
  }

  // ---- ar_tree ----

  method ArStep(t: RadixTree, op: Op)
    requires A.Valid(t) && (op.Clear? || |op.key| == t.length)
    modifies t.Repr
    ensures A.Valid(t) && fresh(t.Repr - old(t.Repr)) && Contents(t) == Apply(old(Contents(t)), op)
  {
    hide Sound, A.Stepwise, A.Crowded, Contents;
    StoredKeys(t);
    match op {
      case Insert(k, v) =>
        var r, inserted := A.Insert(t, k, v);
      case Emplace(k, v) =>
        var r, inserted := A.Emplace(t, k, v);
      case EraseKey(k) =>
        var n := A.EraseKey(t, k);
      case EraseFound(k) =>
        var it := A.Find(t, k);
        if it != t.endLeaf {
          FoundPosition(t, k);
          it := A.EraseAt(t, it);
        } else {
          UnstoredContents(t, k);
        }
      case Clear =>
        Trees.Clear(t);
        A.NoInner(t.trie);
    }
  }

  /** Every run from the empty ar_tree keeps two keys below every inner node and agrees with the map. */
  method ArRun(length: nat, ops: seq<Op>) returns (t: RadixTree)
    requires 0 < length <= 0x1_0000 && Keyed(ops, length)
    ensures A.Valid(t) && t.length == length && fresh(t.Repr) && Contents(t) == ApplyAll(map[], ops)
  {
    hide Sound, A.Stepwise, A.Crowded, Apply;
    t := new RadixTree(length);
    EmptyValid(t);
    for i := 0 to |ops|
      invariant A.Valid(t) && fresh(t.Repr) && Contents(t) == ApplyAll(map[], ops[..i])
    {
      assert ops[..i + 1][..i] == ops[..i];
      ArStep(t, ops[i]);
    }
    assert ops[..|ops|] == ops;
  }

  /** The input on which lower_bound and upper_bound of ar_tree call successor on a null pointer: a key above the only one. */
  method BoundsPastOnlyKey(length: nat, stored: Str, v: Value, k: Str) returns (lower: A.Bound, upper: A.Bound)
    requires 0 < length <= 0x1_0000 && |stored| == |k| == length && Less(stored, k)
    ensures lower == upper == A.NullPointer
  {
    hide Sound, A.Stepwise, A.Crowded, Less, RadixTree.Wired, Node.Rep;
    var t := new RadixTree(length);
    EmptyValid(t);
    var r, inserted := A.Insert(t, stored, v);
    LessAsymmetric(stored, k);
    lower := A.LowerBound(t, k);
    upper := A.UpperBound(t, k);
  }

  // ---- What one call undoes ----

  /** Folding a split node away again gives back the trie. */
  lemma ContractUndoesInterpose(tr: Trie, length: nat, p: Str, c: Str, n: nat)
    requires tr.WF(length) && c in tr.Nodes() && n < |c|
    requires c == tr.root || (|p| < n && tr.Child(p, c[|p|], c))
    ensures c == tr.root || (|p| < |c[..n]| && p in tr.inner)
    ensures tr.Interpose(p, c, n).Contract(p, c[..n], c) == tr
  {
    InterposeNew(tr, length, p, c, n);
    var t := c[..n];
    if c != tr.root {
      assert t[|p|] == c[|p|] && tr.inner[p][c[|p|] := t][c[|p|] := c] == tr.inner[p];
    }
    assert tr.Interpose(p, c, n).Contract(p, t, c).inner == tr.inner;
  }

  /** Taking a hung key away again gives back the trie. */
  lemma UnhangUndoesHang(tr: Trie, s: Str, k: Str)
    requires s in tr.inner && |s| < |k| && k[|s|] !in tr.inner[s] && k !in tr.keys
    ensures tr.Hang(s, k).Unhang(s, k) == tr
  {
    assert tr.inner[s][k[|s|] := k] - {k[|s|]} == tr.inner[s];
    assert tr.Hang(s, k).Unhang(s, k).inner == tr.inner;
  }

  twostate lemma Restored(t: RadixTree)
    requires old(P.Valid(t) && t.root != null) && P.Valid(t) && t.trie.keys == old(t.trie.keys) != {}
    ensures t.root != null && t.trie == old(t.trie)
  {
    hide RadixTree.Owned, RadixTree.LeafOk, RadixTree.KidsOk, RadixTree.PrefixOk, RadixTree.ParentOk, RadixTree.BandOk,
      RadixTree.Banded, Trie.Compressed, Trie.WF;
    S.Canonical(t.trie, old(t.trie), t.length);
  }

  lemma Dropped(m: map<Str, Value>, k: Str, v: Value)
    requires k !in m
    ensures m[k := v] - {k} == m
  {
  }

  twostate lemma AddedThenRemoved(t: RadixTree, new k: Str, new keys: set<Str>, new at1: map<Str, Node>)
    requires k !in old(t.trie.keys) && keys == old(t.trie.keys) + {k} && SameLeaves(old(t.trie.keys), old(t.at), at1)
    requires t.trie.keys == keys - {k} && SameLeaves(t.trie.keys, at1, t.at)
    ensures t.trie.keys == old(t.trie.keys) && SameLeaves(t.trie.keys, old(t.at), t.at)
  {
    assert t.trie.keys == old(t.trie.keys);
    SameLeavesTrans(t.trie.keys, old(t.at), at1, t.at);
  }

  /** Erasing a key just inserted restores the shape of the tree: nodes, children, prefixes and layouts. */
  method InsertThenErase(t: RadixTree, k: Str, v: Value)
    requires P.Valid(t) && |k| == t.length && k !in t.trie.keys && t.root != null
    modifies t.Repr
    ensures P.Valid(t) && t.root != null && t.trie == old(t.trie) && Contents(t) == old(Contents(t))
    ensures SameLeaves(t.trie.keys, old(t.at), t.at)
  {
    hide Sound, Trie.Compressed, Contents, SameLeaves, Trie.WF, RadixTree.Wired;
    StoredKeys(t);
    S.RootIffKeys(t);
    Dropped(Contents(t), k, v);
    var r, inserted := P.Insert(t, k, v);
    ghost var keys, at1 := t.trie.keys, t.at;
    var n := P.EraseKey(t, k);
    AddedThenRemoved(t, k, keys, at1);
    Restored(t);
  }
}
