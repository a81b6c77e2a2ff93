/** Whole runs of B-tree operations against a plain map. */
module BTreeRuns {
  import opened BNodes
  import opened Ranges
  import opened BTrees

  datatype Op =
    | Insert(entry: Entry) | InsertHinted(hint: Key, entry: Entry)
    | Erase(key: Key) | EraseAt(key: Key) | EraseRange(low: Key, high: Key)

  /** One step on a plain map: the first value inserted for a key stays until the key is erased. */
  function Step(was: map<Key, Data>, op: Op): map<Key, Data> {
    match op
    case Insert(e) => if e.key in was then was else was[e.key := e.data]
    case InsertHinted(_, e) => if e.key in was then was else was[e.key := e.data]
    case Erase(k) => was - {k}
    case EraseAt(k) => was - {k}
    case EraseRange(low, high) => was - set y | y in was && low <= y < high
  }

  /** What a run leaves. */
  function Meaning(ops: seq<Op>): map<Key, Data> {
    if |ops| == 0 then map[] else Step(Meaning(ops[..|ops| - 1]), ops[|ops| - 1])
  }

  /** The steps of a run. */
  method Apply(t: BTree, op: Op, linear: bool)
    requires t.Whole()
    modifies t.Repr
    ensures t.Whole() && old(t.Repr) <= t.Repr && fresh(t.Repr - old(t.Repr)) && t.content == Step(old(t.content), op)
    ensures (op.Insert? || op.InsertHinted?) && old(t.Snug(|t.content|)) ==> t.Snug(|t.content|)
  {
    hide BTree.Linked, BTree.Filled, BTree.Sized, BTree.IsEnd, BTree.Snug, BTree.Gained;
    match op {
      case Insert(e) =>
        var it, inserted := t.InsertUnique(e, linear);
      case InsertHinted(hint, e) =>
        InsertNear(t, hint, e, linear);
      case Erase(k) =>
        var count := t.EraseUnique(k, linear);
      case EraseAt(k) =>
        var it := t.FindUnique(k, linear);
        if it.node != null {
          t.PointsRoot(it, k);
          it := t.Erase(it, k);
        }
      case EraseRange(low, high) =>
        EraseBetween(t, low, high, linear);
    }
    if t.root != null { t.RootOwned(); }
  }

  /** Insertion with the hint that lower_bound gives for a key. */
  method InsertNear(t: BTree, hint: Key, e: Entry, linear: bool)
    requires t.Linked() && t.Sized() && t.Filled({})
    modifies t.Repr
    ensures t.Linked() && t.Sized() && t.Filled({}) && old(t.Repr) <= t.Repr && fresh(t.Repr - old(t.Repr))
    ensures t.content == if e.key in old(t.content) then old(t.content) else old(t.content)[e.key := e.data]
    ensures old(t.Snug(|t.content|)) ==> t.Snug(|t.content|)
  {
    hide BTree.Linked, BTree.Filled, BTree.Sized, BTree.Snug, BTree.Gained;
    var position := t.SearchBound(hint, false, linear);
    var it := t.InsertHinted(position, e, linear);
  }

  /** Range erase from the first value not below low to the first not below high. */
  method EraseBetween(t: BTree, low: Key, high: Key, linear: bool)
    requires t.Linked() && t.Sized() && t.Filled({})
    modifies t.Repr
    ensures t.Linked() && t.Sized() && t.Filled({}) && t.Repr == old(t.Repr)
    ensures t.content == old(t.content) - set y | y in old(t.content) && low <= y < high
  {
    hide BTree.Linked, BTree.Filled, BTree.Sized, BTree.Span, BTree.InRange, BTree.IsRange;
    if low < high {
      var begin := t.SearchBound(low, false, linear);
      var end := t.SearchBound(high, false, linear);
      ghost var k, z := RangeOf(t, begin, end, low, high);
      var count := t.EraseRange(begin, end, k, z);
    }
  }

  /** it is where lower_bound of k leads in a tree with a root. */
  ghost predicate AtBound(t: BTree, it: Iter, k: Key)
    reads t, it.node
  {
    if t.IsEnd(it) then forall y :: y in t.content ==> y < k
    else exists x :: t.Points(it, x) && x in t.content && k <= x && forall y :: y in t.content && k <= y ==> x <= y
  }

  /** The iterators that lower_bound gives for low and high enclose the keys between them. */
  lemma RangeOf(t: BTree, begin: Iter, end: Iter, low: Key, high: Key) returns (k: Key, z: Bound)
    requires t.Linked() && low < high
    requires if t.root == null then begin == end else AtBound(t, begin, low) && AtBound(t, end, high)
    ensures t.IsRange(begin, end, k, z) && t.InRange(begin, end, k, z) == set y | y in t.content && low <= y < high
  {
    hide BTree.Linked;
    k, z := low, Open;
    if t.root == null {
      t.EmptyTree();
    } else if t.IsEnd(begin) {
      if t.IsEnd(end) { t.OneEnd(begin, end); }
    } else {
      k :| t.Points(begin, k) && k in t.content && low <= k && forall y :: y in t.content && low <= y ==> k <= y;
      if !t.IsEnd(end) {
        var x :| t.Points(end, x) && x in t.content && high <= x && forall y :: y in t.content && high <= y ==> x <= y;
        z := At(x);
        if begin == end { assert k == x; }
      }
    }
    forall y: Key | y in t.InRange(begin, end, k, z) ensures y in t.content && low <= y < high {}
    forall y: Key | y in t.content && low <= y < high ensures y in t.InRange(begin, end, k, z) {}
  }

  /** A run from the empty tree, with any node size and either node search. */
  method Replay(nodeValues: nat, ops: seq<Op>, linear: bool) returns (t: BTree)
    requires nodeValues >= 3
    ensures fresh(t.Repr) && t.Linked() && t.Sized() && t.Filled({}) && t.content == Meaning(ops)
    ensures (forall op :: op in ops ==> op.Insert? || op.InsertHinted?) ==> t.Snug(|Meaning(ops)|)
  {
    hide BTree.Linked, BTree.Filled, BTree.Sized;
    t := new BTree(nodeValues);
    t.NewTree();
    for i := 0 to |ops|
      invariant fresh(t.Repr) && t.Whole() && t.content == Meaning(ops[..i])
      invariant (forall op :: op in ops ==> op.Insert? || op.InsertHinted?) ==> t.Snug(|t.content|)
    {
      assert ops[..i + 1][..i] == ops[..i];
      Apply(t, ops[i], linear);
    }
    assert ops[..|ops|] == ops;
  }

  /** Values in order are determined by what they are. */
  lemma {:induction false} SortedSame(vs: seq<Entry>, ws: seq<Entry>)
    requires Sorted(vs) && Sorted(ws) && forall e :: e in vs <==> e in ws
    ensures vs == ws
  {
    assert |vs| > 0 ==> vs[0] in vs;
    assert |ws| > 0 ==> ws[0] in ws;
    if |vs| > 0 {
      assert vs[|vs| - 1] in ws;
      assert ws[|ws| - 1] in vs;
      var m, n := |vs| - 1, |ws| - 1;
      assert vs[m] == ws[n] by { LastSame(vs, ws); }
      forall e ensures e in vs[..m] <==> e in ws[..n] {
        Front(vs, e);
        Front(ws, e);
      }
      SortedSame(vs[..m], ws[..n]);
      assert vs == vs[..m] + [vs[m]] && ws == ws[..n] + [ws[n]];
    }
  }

  lemma LastSame(vs: seq<Entry>, ws: seq<Entry>)
    requires Sorted(vs) && Sorted(ws) && |vs| > 0 && |ws| > 0 && vs[|vs| - 1] in ws && ws[|ws| - 1] in vs
    ensures vs[|vs| - 1] == ws[|ws| - 1]
  {
    var i :| 0 <= i < |ws| && ws[i] == vs[|vs| - 1];
    var j :| 0 <= j < |vs| && vs[j] == ws[|ws| - 1];
  }

  lemma Front(vs: seq<Entry>, e: Entry)
    requires Sorted(vs) && |vs| > 0
    ensures e in vs[..|vs| - 1] <==> e in vs && e != vs[|vs| - 1]
  {
    if e in vs[..|vs| - 1] {
      var i :| 0 <= i < |vs| - 1 && vs[..|vs| - 1][i] == e;
      assert vs[i] == e && vs[i].key < vs[|vs| - 1].key;
    }
  }

  /** Two runs with the same meaning read the same from begin() to end(), whatever the shapes of their trees. */
  method ReplayBoth(m: nat, ops: seq<Op>, n: nat, ops': seq<Op>, linear: bool) returns (vs: seq<Entry>, ws: seq<Entry>)
    requires m >= 3 && n >= 3 && Meaning(ops) == Meaning(ops')
    ensures vs == ws && (forall e :: e in vs <==> e.key in Meaning(ops) && Meaning(ops)[e.key] == e.data)
  {
    hide BTree.Linked, BTree.Filled;
    var a := Replay(m, ops, linear);
    vs := a.Traverse();
    a.VisitedAre(vs);
    var b := Replay(n, ops', linear);
    ws := b.Traverse();
    b.VisitedAre(ws);
    SortedSame(vs, ws);
  }
}
