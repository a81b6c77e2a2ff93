/** Sorted values between two bounds: taking them apart, putting them together, and their keys. */
module Ranges {
  import opened BNodes

  /** Bounds of the child j of a node with the values vals between lo and hi. */
  function LoOf(vals: seq<Entry>, lo: Bound, j: nat): Bound
    requires j <= |vals|
  {
    if j == 0 then lo else At(vals[j - 1].key)
  }

  function HiOf(vals: seq<Entry>, hi: Bound, j: nat): Bound
    requires j <= |vals|
  {
    if j == |vals| then hi else At(vals[j].key)
  }

  predicate Above(lo: Bound, k: Key) { lo.At? ==> lo.key < k }

  predicate Under(k: Key, hi: Bound) { hi.At? ==> k < hi.key }

  ghost predicate Within(vals: seq<Entry>, lo: Bound, hi: Bound) {
    forall i :: 0 <= i < |vals| ==> Above(lo, vals[i].key) && Under(vals[i].key, hi)
  }

  ghost function KeySet(vals: seq<Entry>): set<Key> {
    set i | 0 <= i < |vals| :: vals[i].key
  }

  // ---- Joining and parting sorted values around a delimiter ----

  lemma JoinSorted(a: seq<Entry>, d: Entry, b: seq<Entry>, lo: Bound, hi: Bound)
    requires Sorted(a) && Sorted(b) && Within(a, lo, At(d.key)) && Within(b, At(d.key), hi) && Within([d], lo, hi)
    ensures Sorted(a + [d] + b) && Within(a + [d] + b, lo, hi)
  {
    var v := a + [d] + b;
    assert [d][0] == d;
    forall i | 0 <= i < |v| ensures v[i] == (if i < |a| then a[i] else if i == |a| then d else b[i - |a| - 1])
      && Above(lo, v[i].key) && Under(v[i].key, hi) {
    }
    forall i, j | 0 <= i < j < |v| ensures v[i].key < v[j].key {
    }
  }

  lemma PartSorted(a: seq<Entry>, d: Entry, b: seq<Entry>, lo: Bound, hi: Bound)
    requires Sorted(a + [d] + b) && Within(a + [d] + b, lo, hi)
    ensures Sorted(a) && Sorted(b) && Within(a, lo, At(d.key)) && Within(b, At(d.key), hi) && Within([d], lo, hi)
  {
    var v := a + [d] + b;
    assert v[|a|] == d;
    assert forall i :: 0 <= i < |a| ==> v[i] == a[i];
    assert forall i :: 0 <= i < |b| ==> v[|a| + 1 + i] == b[i];
  }

  /** The bounds of the children do not depend on where a delimiter is drawn. */
  lemma BoundsLeft(a: seq<Entry>, d: Entry, b: seq<Entry>, lo: Bound, hi: Bound, j: nat)
    requires j <= |a|
    ensures LoOf(a + [d] + b, lo, j) == LoOf(a, lo, j) && HiOf(a + [d] + b, hi, j) == HiOf(a, At(d.key), j)
  {
  }

  lemma BoundsRight(a: seq<Entry>, d: Entry, b: seq<Entry>, lo: Bound, hi: Bound, j: nat)
    requires j <= |b|
    ensures LoOf(a + [d] + b, lo, |a| + 1 + j) == LoOf(b, At(d.key), j)
    ensures HiOf(a + [d] + b, hi, |a| + 1 + j) == HiOf(b, hi, j)
  {
    var v := a + [d] + b;
    assert v[|a| + j] == if j == 0 then d else b[j - 1];
  }

  lemma KeySetConcat(a: seq<Entry>, b: seq<Entry>)
    ensures KeySet(a + b) == KeySet(a) + KeySet(b)
  {
    forall k | k in KeySet(a) + KeySet(b) ensures k in KeySet(a + b) {
      if k in KeySet(a) {
        var i :| 0 <= i < |a| && a[i].key == k;
        assert (a + b)[i] == a[i];
      } else {
        var i :| 0 <= i < |b| && b[i].key == k;
        assert (a + b)[|a| + i] == b[i];
      }
    }
  }

  lemma KeySetJoin(a: seq<Entry>, d: Entry, b: seq<Entry>)
    ensures KeySet(a + [d] + b) == KeySet(a) + {d.key} + KeySet(b)
  {
    KeySetConcat(a + [d], b);
    KeySetConcat(a, [d]);
    assert [d][0].key in KeySet([d]);
  }

  /** The keys of a sorted part lie within its bounds. */
  lemma KeysWithin(vals: seq<Entry>, lo: Bound, hi: Bound, k: Key)
    requires Within(vals, lo, hi) && k in KeySet(vals)
    ensures Above(lo, k) && Under(k, hi)
  {
  }

  lemma SortedInsert(vals: seq<Entry>, i: nat, x: Entry, lo: Bound, hi: Bound)
    requires i <= |vals| && Sorted(vals) && Within(vals, lo, hi) && Within([x], LoOf(vals, lo, i), HiOf(vals, hi, i))
    requires Within([x], lo, hi)
    ensures Sorted(vals[..i] + [x] + vals[i..]) && Within(vals[..i] + [x] + vals[i..], lo, hi)
  {
    var a, b := vals[..i], vals[i..];
    assert [x][0] == x;
    forall j | 0 <= j < |a| ensures Above(lo, a[j].key) && a[j].key < x.key {
      assert a[j] == vals[j] && vals[j].key <= vals[i - 1].key;
    }
    forall j | 0 <= j < |b| ensures x.key < b[j].key && Under(b[j].key, hi) {
      assert b[j] == vals[i + j] && vals[i].key <= vals[i + j].key;
    }
    JoinSorted(a, x, b, lo, hi);
  }

  lemma SortedRemove(vals: seq<Entry>, i: nat, lo: Bound, hi: Bound)
    requires i < |vals| && Sorted(vals) && Within(vals, lo, hi)
    ensures Sorted(vals[..i] + vals[i + 1..]) && Within(vals[..i] + vals[i + 1..], lo, hi)
  {
  }

  /** Bounds after a value has come in at i: those before and after it, and the two it parts. */
  lemma BoundsInsert(vals: seq<Entry>, i: nat, x: Entry, lo: Bound, hi: Bound, j: nat)
    requires i <= |vals| && j <= |vals| + 1
    ensures var w := vals[..i] + [x] + vals[i..];
      && (j < i ==> LoOf(w, lo, j) == LoOf(vals, lo, j) && HiOf(w, hi, j) == HiOf(vals, hi, j))
      && (j == i ==> LoOf(w, lo, j) == LoOf(vals, lo, i) && HiOf(w, hi, j) == At(x.key))
      && (j == i + 1 ==> LoOf(w, lo, j) == At(x.key) && HiOf(w, hi, j) == HiOf(vals, hi, i))
      && (j > i + 1 ==> LoOf(w, lo, j) == LoOf(vals, lo, j - 1) && HiOf(w, hi, j) == HiOf(vals, hi, j - 1))
  {
    var w := vals[..i] + [x] + vals[i..];
    assert forall k :: 0 <= k < |w| ==> w[k] == if k < i then vals[k] else if k == i then x else vals[k - 1];
  }

  // ---- Keys of sorted values ----

  /** Another delimiter between the same neighbours keeps the values sorted. */
  lemma SortedUpdate(vals: seq<Entry>, i: nat, d: Entry, lo: Bound, hi: Bound)
    requires i < |vals| && Sorted(vals) && Within(vals, lo, hi) && Within([d], LoOf(vals, lo, i), HiOf(vals, hi, i + 1))
    ensures Sorted(vals[i := d]) && Within(vals[i := d], lo, hi)
  {
    assert [d][0] == d;
  }

  lemma WiderWithin(vals: seq<Entry>, i: nat, x: Entry, lo: Bound, hi: Bound)
    requires i <= |vals| && Within(vals, lo, hi) && Within([x], LoOf(vals, lo, i), HiOf(vals, hi, i))
    ensures Within([x], lo, hi)
  {
    assert [x][0] == x;
  }

  lemma BetweenValues(vals: seq<Entry>, i: nat, e: Entry, lo: Bound, hi: Bound)
    requires i < |vals| && Sorted(vals) && Within(vals, lo, hi) && Above(LoOf(vals, lo, i), e.key)
      && Under(e.key, HiOf(vals, hi, i))
    ensures Within([e], LoOf(vals, lo, i), HiOf(vals, hi, i + 1))
  {
    assert [e][0] == e;
  }

  lemma KeySetOne(e: Entry)
    ensures KeySet([e]) == {e.key}
  {
    assert [e][0].key in KeySet([e]);
  }

  /** The keys of sorted values with one more among them. */
  lemma KeySetInsert(vals: seq<Entry>, pos: nat, e: Entry)
    requires pos <= |vals|
    ensures KeySet(vals[..pos] + [e] + vals[pos..]) == KeySet(vals) + {e.key}
  {
    hide KeySet;
    KeySetJoin(vals[..pos], e, vals[pos..]);
    KeySetConcat(vals[..pos], vals[pos..]);
    assert vals == vals[..pos] + vals[pos..];
  }

  lemma KeySetRemove(vals: seq<Entry>, pos: nat)
    requires pos < |vals| && Sorted(vals)
    ensures KeySet(vals[..pos] + vals[pos + 1..]) == KeySet(vals) - {vals[pos].key}
  {
    var w := vals[..pos] + vals[pos + 1..];
    forall k | k in KeySet(vals) - {vals[pos].key} ensures k in KeySet(w) {
      var i :| 0 <= i < |vals| && vals[i].key == k;
      assert w[if i < pos then i else i - 1].key == k;
    }
    forall k | k in KeySet(w) ensures k in KeySet(vals) - {vals[pos].key} {
      var i :| 0 <= i < |w| && w[i].key == k;
      assert vals[if i < pos then i else i + 1].key == k;
    }
  }

  lemma {:induction false} KeyCount(vals: seq<Entry>)
    requires Sorted(vals)
    ensures |KeySet(vals)| == |vals|
  {
    if |vals| == 0 {
      assert KeySet(vals) == {};
    } else {
      var a, d := vals[..|vals| - 1], vals[|vals| - 1];
      assert vals == a + [d] + [];
      KeySetJoin(a, d, []);
      assert d.key !in KeySet(a);
      KeyCount(a);
    }
  }

  lemma SortedSlice(vals: seq<Entry>, i: nat, j: nat)
    requires Sorted(vals) && i <= j <= |vals|
    ensures Sorted(vals[i..j])
  {
  }

  lemma SliceKey(vals: seq<Entry>, lo: Bound, hi: Bound, i: nat, j: nat, y: Key)
    requires Sorted(vals) && Within(vals, lo, hi) && i < |vals| && i <= j <= |vals| && y in KeySet(vals[i..j])
    ensures vals[i].key <= y && Under(y, HiOf(vals, hi, j)) && y in KeySet(vals)
  {
    var m :| 0 <= m < |vals[i..j]| && vals[i..j][m].key == y;
    assert vals[i + m].key == y;
  }

  lemma KeySlice(vals: seq<Entry>, lo: Bound, hi: Bound, i: nat, j: nat, y: Key)
    requires Sorted(vals) && i < |vals| && i <= j <= |vals| && vals[i].key <= y && Under(y, HiOf(vals, hi, j))
    requires Under(y, hi) ==> y in KeySet(vals)
    requires Within(vals, lo, hi)
    ensures y in KeySet(vals[i..j])
  {
    assert Under(y, hi);
    var m :| 0 <= m < |vals| && vals[m].key == y;
    assert vals[i..j][m - i].key == y;
  }

  lemma LastKey(vals: seq<Entry>, x: Key)
    requires Sorted(vals) && x in KeySet(vals)
    ensures |vals| > 0 && x <= vals[|vals| - 1].key
  {
  }

  lemma FirstKey(vals: seq<Entry>, x: Key)
    requires Sorted(vals)
    ensures x in KeySet(vals) ==> |vals| > 0 && vals[0].key <= x
  {
  }

  lemma NotBeyond(vals: seq<Entry>, x: Key)
    requires Sorted(vals)
    ensures x in KeySet(vals) ==> |vals| > 0 && x <= vals[|vals| - 1].key
  {
  }

  lemma Between(vals: seq<Entry>, i: nat, x: Key)
    requires Sorted(vals) && i + 1 < |vals|
    ensures x in KeySet(vals) ==> !(vals[i].key < x < vals[i + 1].key)
  {
  }

  lemma KeyAt(vals: seq<Entry>, pos: int, k: Key, upper: bool, y: Key)
    requires Sorted(vals) && y in KeySet(vals) && !BNode.Before(y, k, upper) && 0 <= pos <= |vals|
    requires forall i :: 0 <= i < |vals| ==> (BNode.Before(vals[i].key, k, upper) <==> i < pos)
    ensures pos < |vals| && vals[pos].key <= y
  {
  }

  lemma LowBelow(vals: seq<Entry>, lo: Bound, hi: Bound, i: nat)
    requires i < |vals| && Sorted(vals) && Within(vals, lo, hi)
    ensures Above(LoOf(vals, lo, i), vals[i].key)
  {
  }

  lemma PullRun(a: seq<Entry>, d: Entry, b: seq<Entry>, m: nat)
    requires 1 <= m <= |b|
    ensures (a + [d] + b[..m - 1]) + [b[m - 1]] + b[m..] == a + [d] + b
  {
  }

  lemma PushRun(a: seq<Entry>, d: Entry, b: seq<Entry>, m: nat)
    requires 1 <= m <= |a|
    ensures a[..|a| - m] + [a[|a| - m]] + (a[|a| - m + 1..] + [d] + b) == a + [d] + b
  {
  }

  lemma CutRun(run: seq<Entry>, m: nat)
    requires m < |run|
    ensures run[..m] + [run[m]] + run[m + 1..] == run
  {
  }

  function Shifted(b: Bound, k: Key, k1: Key): Bound {
    if b == At(k) then At(k1) else b
  }

  ghost predicate SlotIn(vals: seq<Entry>, lo: Bound, hi: Bound, pos: int, k: Key) {
    0 <= pos <= |vals| && Above(LoOf(vals, lo, pos), k) && Under(k, HiOf(vals, hi, pos))
  }

  /** A slot of either side is a slot of the run, and the other way around. */
  lemma SlotRun(a: seq<Entry>, d: Entry, b: seq<Entry>, lo: Bound, hi: Bound, q: int, k: Key)
    requires 0 <= q <= |a| + 1 + |b|
    ensures q <= |a| ==> (SlotIn(a, lo, At(d.key), q, k) <==> SlotIn(a + [d] + b, lo, hi, q, k))
    ensures q > |a| ==> (SlotIn(b, At(d.key), hi, q - |a| - 1, k) <==> SlotIn(a + [d] + b, lo, hi, q, k))
  {
    if q <= |a| {
      BoundsLeft(a, d, b, lo, hi, q);
    } else {
      BoundsRight(a, d, b, lo, hi, q - |a| - 1);
    }
  }

  lemma SlotBound(vals: seq<Entry>, lo: Bound, hi: Bound, pos: int, k: Key)
    requires SlotIn(vals, lo, hi, pos, k)
    ensures 0 <= pos <= |vals|
  {
  }

  lemma OneSlotIn(vals: seq<Entry>, lo: Bound, hi: Bound, p: int, q: int, k: Key)
    requires Sorted(vals) && SlotIn(vals, lo, hi, p, k) && SlotIn(vals, lo, hi, q, k)
    ensures p == q
  {
  }

  ghost predicate GapIn(vals: seq<Entry>, lo: Bound, hi: Bound, pos: int, g: Key) {
    && 0 <= pos <= |vals| && Above(lo, g) && (hi.At? ==> g <= hi.key)
    && forall i :: 0 <= i < |vals| ==> (vals[i].key < g <==> i < pos)
  }

  /** The gap of a key in either side is its gap in the run. */
  lemma GapOfRun(a: seq<Entry>, d: Entry, b: seq<Entry>, lo: Bound, hi: Bound, pos: int, g: Key)
    requires Sorted(a + [d] + b) && Within(a + [d] + b, lo, hi)
    ensures GapIn(a, lo, At(d.key), pos, g) ==> GapIn(a + [d] + b, lo, hi, pos, g)
    ensures GapIn(b, At(d.key), hi, pos, g) ==> GapIn(a + [d] + b, lo, hi, |a| + 1 + pos, g)
  {
    PartSorted(a, d, b, lo, hi);
    assert [d][0] == d;
    var v := a + [d] + b;
    assert v[|a|] == d;
    assert forall i :: 0 <= i < |v| ==> v[i] == if i < |a| then a[i] else if i == |a| then d else b[i - |a| - 1];
  }

  /** And the other way around. */
  lemma GapInSides(a: seq<Entry>, d: Entry, b: seq<Entry>, lo: Bound, hi: Bound, q: int, g: Key)
    requires GapIn(a + [d] + b, lo, hi, q, g)
    ensures 0 <= q <= |a| + 1 + |b|
    ensures q <= |a| ==> GapIn(a, lo, At(d.key), q, g)
    ensures q > |a| ==> GapIn(b, At(d.key), hi, q - |a| - 1, g)
  {
    var v := a + [d] + b;
    assert v[|a|] == d;
    assert forall i :: 0 <= i < |a| ==> v[i] == a[i];
    assert forall i :: 0 <= i < |b| ==> v[|a| + 1 + i] == b[i];
  }

  lemma RemovedGap(vals: seq<Entry>, pos: nat, lo: Bound, hi: Bound)
    requires pos < |vals| && Sorted(vals) && Within(vals, lo, hi)
    ensures GapIn(vals[..pos] + vals[pos + 1..], lo, hi, pos, vals[pos].key)
  {
  }

  lemma FewerKeys(a: set<Key>, b: set<Key>)
    requires a <= b
    ensures |a| <= |b|
  {
    assert b == a + (b - a);
  }

  lemma SameSets(a: set<Key>, b: set<Key>)
    requires b <= a && forall y :: y in a ==> y in b
    ensures a == b
  {
    forall y: Key | y in a ensures y in b {}
  }

  lemma SameSize(a: set<Key>, b: set<Key>)
    requires a <= b && |a| == |b|
    ensures a == b
  {
    assert b == a + (b - a);
  }

  lemma OneFewer(was: map<Key, Data>, k: Key)
    requires k in was
    ensures |was - {k}| == |was| - 1
  {
    assert (was - {k}).Keys == was.Keys - {k};
    assert |(was - {k}).Keys| == |was.Keys| - 1;
  }

  lemma WithinOne(d: Entry, lo: Bound, hi: Bound)
    requires Within([d], lo, hi)
    ensures Above(lo, d.key) && Under(d.key, hi)
  {
    assert [d][0] == d;
  }
}
