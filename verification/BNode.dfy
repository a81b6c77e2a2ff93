/** The nodes of the B-tree: sorted values and children in fixed arrays, moved by swaps. */
module BNodes {
  type Data(==, 0, !new)

  /** Keys with their strict order: every countable order, so that of any key type of a program, embeds in the reals. */
  type Key = real

  /** A value. */
  datatype Entry = Entry(key: Key, data: Data)

  // ---- Moving values within and between arrays ----

  /** The loop of insert_value: x is swapped down from position count to position i. */
  method ShiftIn<T>(a: array<T>, count: nat, i: nat, x: T)
    requires i <= count < a.Length
    modifies a
    ensures a[..count + 1] == old(a[..i]) + [x] + old(a[i..count])
  {
    a[count] := x;
    var j := count;
    while j > i
      invariant i <= j <= count && a[j] == x
      invariant forall k :: 0 <= k < j ==> a[k] == old(a[k])
      invariant forall k :: j < k < count + 1 ==> a[k] == old(a[k - 1])
    {
      a[j], a[j - 1] := a[j - 1], a[j];
      j := j - 1;
    }
    Inserted(old(a[..]), a[..], count, i, x);
    assert a[..count + 1] == a[..][..count + 1];
    assert old(a[..i]) == old(a[..])[..i] && old(a[i..count]) == old(a[..])[i..count];
  }

  lemma Inserted<T>(s: seq<T>, t: seq<T>, n: nat, pos: nat, x: T)
    requires pos <= n < |s| == |t| && t[pos] == x
    requires forall i :: 0 <= i < pos ==> t[i] == s[i]
    requires forall i :: pos < i < n + 1 ==> t[i] == s[i - 1]
    ensures t[..n + 1] == s[..pos] + [x] + s[pos..n]
  {
    assert t[..n + 1] == t[..pos] + [t[pos]] + t[pos + 1..n + 1];
  }

  /** The loop of remove_value: the value at i is swapped up to the last position. */
  method ShiftOut<T>(a: array<T>, count: nat, i: nat)
    requires i < count <= a.Length
    modifies a
    ensures a[..count - 1] == old(a[..i]) + old(a[i + 1..count])
  {
    var j := i;
    while j < count - 1
      invariant i <= j <= count - 1
      invariant forall k :: 0 <= k < i ==> a[k] == old(a[k])
      invariant forall k :: i <= k < j ==> a[k] == old(a[k + 1])
      invariant forall k :: j < k < count ==> a[k] == old(a[k])
    {
      a[j], a[j + 1] := a[j + 1], a[j];
      j := j + 1;
    }
    assert a[..count - 1] == a[..i] + a[i..count - 1];
    assert a[i..count - 1] == old(a[i + 1..count]);
  }

  /** A loop of swaps between two arrays: n elements of b from position bi reach a at position ai. */
  method SwapRange<T>(a: array<T>, ai: nat, b: array<T>, bi: nat, n: nat)
    requires a != b && ai + n <= a.Length && bi + n <= b.Length
    modifies a, b
    ensures forall k :: 0 <= k < a.Length ==> a[k] == if ai <= k < ai + n then old(b[k - ai + bi]) else old(a[k])
    ensures forall k :: 0 <= k < b.Length ==> b[k] == if bi <= k < bi + n then old(a[k - bi + ai]) else old(b[k])
  {
    for i := 0 to n
      invariant forall k :: 0 <= k < a.Length ==> a[k] == if ai <= k < ai + i then old(b[k - ai + bi]) else old(a[k])
      invariant forall k :: 0 <= k < b.Length ==> b[k] == if bi <= k < bi + i then old(a[k - bi + ai]) else old(b[k])
    {
      a[ai + i], b[bi + i] := b[bi + i], a[ai + i];
    }
  }

  /** The loop of swap: the first m elements of a change places with the first n of b. */
  method SwapFronts<T>(a: array<T>, b: array<T>, m: nat, n: nat)
    requires a != b && m <= a.Length == b.Length && n <= a.Length
    modifies a, b
    ensures a[..n] == old(b[..n]) && b[..m] == old(a[..m])
  {
    SwapRange(a, 0, b, 0, if m > n then m else n);
  }

  /** A loop of swaps that moves the elements [m, n) to the front. */
  method SlideDown<T>(a: array<T>, n: nat, m: nat)
    requires m <= n <= a.Length
    modifies a
    ensures a[..n - m] == old(a[m..n])
  {
    for i := m to n
      invariant forall k :: 0 <= k < i - m ==> a[k] == old(a[k + m])
      invariant forall k :: i <= k < n ==> a[k] == old(a[k])
    {
      a[i - m], a[i] := a[i], a[i - m];
    }
  }

  /** A loop of swaps, from the last element down, that moves the first n elements m places up. */
  method SlideUp<T>(a: array<T>, n: nat, m: nat)
    requires n + m <= a.Length
    modifies a
    ensures a[m..m + n] == old(a[..n])
  {
    for i := n downto 0
      invariant forall k :: 0 <= k < i ==> a[k] == old(a[k])
      invariant forall k :: i + m <= k < n + m ==> a[k] == old(a[k - m])
    {
      a[i], a[i + m] := a[i + m], a[i];
    }
  }

  /** The value moves of rebalance_right_to_left: the delimiter and m - 1 values of src go left. */
  method PullValues<T>(left: array<T>, lc: nat, par: array<T>, pos: nat, src: array<T>, sc: nat, m: nat)
    requires left != par && left != src && par != src
    requires 1 <= m <= sc <= src.Length && lc + m <= left.Length && pos < par.Length
    modifies left, par, src
    ensures left[..lc + m] == old(left[..lc]) + [old(par[pos])] + old(src[..m - 1])
    ensures par[..] == old(par[..])[pos := old(src[m - 1])]
    ensures src[..sc - m] == old(src[m..sc])
  {
    left[lc], par[pos] := par[pos], left[lc];
    par[pos], src[m - 1] := src[m - 1], par[pos];
    SwapRange(left, lc + 1, src, 0, m - 1);
    assert src[m..sc] == old(src[m..sc]);
    assert left[lc + 1..lc + m] == old(src[..m - 1]);
    assert left[..lc] == old(left[..lc]) && left[lc] == old(par[pos]);
    SlideDown(src, sc, m);
    assert left[..lc + m] == left[..lc] + [left[lc]] + left[lc + 1..lc + m];
  }

  /** The value moves of rebalance_left_to_right: the delimiter and m - 1 values of left go right. */
  method PushValues<T>(left: array<T>, lc: nat, par: array<T>, pos: nat, dest: array<T>, dc: nat, m: nat)
    requires left != par && left != dest && par != dest
    requires 1 <= m <= lc <= left.Length && dc + m <= dest.Length && pos < par.Length
    modifies left, par, dest
    ensures left[..lc - m] == old(left[..lc - m])
    ensures par[..] == old(par[..])[pos := old(left[lc - m])]
    ensures dest[..dc + m] == old(left[lc - m + 1..lc]) + [old(par[pos])] + old(dest[..dc])
  {
    SlideUp(dest, dc, m);
    dest[m - 1], par[pos] := par[pos], dest[m - 1];
    par[pos], left[lc - m] := left[lc - m], par[pos];
    assert dest[m..m + dc] == old(dest[..dc]);
    SwapRange(left, lc - m + 1, dest, 0, m - 1);
    assert dest[m..m + dc] == old(dest[..dc]);
    assert dest[..m - 1] == old(left[lc - m + 1..lc]);
    assert dest[..dc + m] == dest[..m - 1] + [dest[m - 1]] + dest[m..m + dc];
  }

  // ---- Nodes ----

  /** A bound on keys, open on either side. */
  datatype Bound = Open | At(key: Key)

  ghost predicate Distinct(cs: seq<BNode>) {
    forall i, j :: 0 <= i < j < |cs| ==> cs[i] != cs[j]
  }

  lemma DistinctAt(cs: seq<BNode>, j: nat)
    requires Distinct(cs) && j < |cs|
    ensures forall k :: 0 <= k < |cs| && k != j ==> cs[k] != cs[j]
  {
  }

  lemma Parted(a: seq<BNode>, b: seq<BNode>)
    requires Distinct(a + b)
    ensures Distinct(a) && Distinct(b) && Apart(a, b)
  {
    assert forall i :: 0 <= i < |b| ==> b[i] == (a + b)[|a| + i];
    assert forall i :: 0 <= i < |a| ==> a[i] == (a + b)[i];
  }

  lemma Closed(cs: seq<BNode>, t: seq<BNode?>, n: nat, i: nat)
    requires i + 1 < |cs| == n + 1 <= |t|
    requires forall k :: 0 <= k <= i ==> t[k] == cs[k]
    requires forall k :: i < k < n ==> t[k] == cs[k + 1]
    ensures t[..n] == cs[..i + 1] + cs[i + 2..]
  {
  }

  /** cs are the children of n at the positions from on. */
  ghost predicate PlacedIn(n: BNode, cs: seq<BNode>, from: nat)
    reads (set c | c in cs)`parent, (set c | c in cs)`position
  {
    forall j :: 0 <= j < |cs| ==> cs[j].parent == n && cs[j].position == from + j
  }

  lemma PlacedConcat(n: BNode, a: seq<BNode>, b: seq<BNode>)
    requires PlacedIn(n, a, 0) && PlacedIn(n, b, |a|)
    ensures PlacedIn(n, a + b, 0)
  {
  }

  lemma PlacedSplit(n: BNode, a: seq<BNode>, b: seq<BNode>)
    requires PlacedIn(n, a + b, 0)
    ensures PlacedIn(n, a, 0) && PlacedIn(n, b, |a|)
  {
    assert forall i :: 0 <= i < |b| ==> b[i] == (a + b)[|a| + i];
    assert forall i :: 0 <= i < |a| ==> a[i] == (a + b)[i];
  }

  /** No node is in both. */
  ghost predicate Apart(a: seq<BNode>, b: seq<BNode>) {
    forall c :: !(c in a && c in b)
  }

  /** The keys are strictly increasing. */
  ghost predicate Sorted(vals: seq<Entry>) {
    forall i, j :: 0 <= i < j < |vals| ==> vals[i].key < vals[j].key
  }

  class BNode {
    const leaf: bool
    const maxCount: nat
    /** The position of the node in its parent. */
    var position: nat
    var count: nat
    var parent: BNode?
    const values: array<Entry>
    const children: array<BNode?>

    // Fields of an internal root.
    var rightmost: BNode?
    var size: nat

    /** What the arrays hold. */
    ghost var vals: seq<Entry>
    ghost var kids: seq<BNode>
    /** All keys below the node lie strictly between lo and hi. */
    ghost var lo: Bound
    ghost var hi: Bound
    ghost var height: nat

    ghost predicate ValsRep()
      reads `count, `vals, values
    {
      count == |vals| <= maxCount == values.Length && values[..count] == vals
    }

    ghost predicate KidsRep()
      reads `kids, children
    {
      && (leaf ==> kids == [] && children.Length == 0)
      && (!leaf ==> children.Length == maxCount + 1 && 1 <= |kids| <= maxCount + 1 && children[..|kids|] == kids)
    }

    ghost predicate Rep()
      reads `count, `vals, `kids, values, children
    {
      ValsRep() && KidsRep() && (!leaf ==> |kids| == count + 1)
    }

    /** The children know their parent and their position. */
    ghost predicate Placed()
      reads `kids, (set c | c in kids)`parent, (set c | c in kids)`position
    {
      PlacedIn(this, kids, 0)
    }

    /** The arrays hold the node's values and children, and the children know it. */
    ghost predicate Settled()
      reads `count, `vals, `kids, values, children, (set c | c in kids)`parent, (set c | c in kids)`position
    {
      Rep() && Placed()
    }

    /** set_child */
    method SetChild(i: nat, c: BNode)
      requires i < children.Length
      modifies children, c`parent, c`position
      ensures children[..] == old(children[..])[i := c] && c.parent == this && c.position == i
    {
      children[i] := c;
      c.parent := this;
      c.position := i;
    }

    /** A loop of set_child: the n children of src from position from on come to positions at and up;
        their old slots are set to null if clear is set. */
    method AdoptRange(at: nat, src: BNode, from: nat, n: nat, clear: bool, ghost cs: seq<BNode>)
      requires src != this && children != src.children && at + n <= children.Length && from + n <= src.children.Length
      requires src.children[from..from + n] == cs && Distinct(cs)
      modifies children, src.children, (set c | c in cs)`parent, (set c | c in cs)`position
      ensures children[..at] == old(children[..at]) && children[at..at + n] == cs
      ensures children[at + n..] == old(children[at + n..])
      ensures src.children[..from] == old(src.children[..from]) && (!clear ==> src.children[..] == old(src.children[..]))
      ensures PlacedIn(this, cs, at)
    {
      hide Distinct;
      for i := 0 to n
        invariant forall k :: i <= k < n ==> src.children[from + k] == cs[k]
        invariant src.children[..from] == old(src.children[..from]) && (!clear ==> src.children[..] == old(src.children[..]))
        invariant children[..at] == old(children[..at]) && children[at..at + i] == cs[..i]
        invariant children[at + n..] == old(children[at + n..])
        invariant forall j :: 0 <= j < i ==> cs[j].parent == this && cs[j].position == at + j
      {
        DistinctAt(cs, i);
        assert src.children[from + i] == cs[i];
        var c: BNode := src.children[from + i];
        SetChild(at + i, c);
        if clear {
          src.children[from + i] := null;
        }
      }
    }

    /** A loop of set_child within the node, from the front: the children from position m on move to the front. */
    method AdoptDown(m: nat, n: nat, ghost cs: seq<BNode>)
      requires m > 0 && m + n <= children.Length && children[m..m + n] == cs && Distinct(cs)
      modifies children, (set c | c in cs)`parent, (set c | c in cs)`position
      ensures children[..n] == cs && PlacedIn(this, cs, 0)
    {
      hide Distinct;
      for i := 0 to n
        invariant forall k :: 0 <= k < i ==> children[k] == cs[k]
        invariant forall k :: i <= k < n ==> children[k + m] == cs[k]
        invariant forall j :: 0 <= j < i ==> cs[j].parent == this && cs[j].position == j
      {
        DistinctAt(cs, i);
        assert children[i + m] == cs[i];
        var c: BNode := children[i + m];
        SetChild(i, c);
        children[i + m] := null;
      }
    }

    /** A loop of set_child within the node, from the back: the first n children move m places up. */
    method AdoptUp(m: nat, n: nat, ghost cs: seq<BNode>)
      requires m > 0 && m + n <= children.Length && children[..n] == cs && Distinct(cs)
      modifies children, (set c | c in cs)`parent, (set c | c in cs)`position
      ensures children[m..m + n] == cs && PlacedIn(this, cs, m)
    {
      hide Distinct;
      for i := n downto 0
        invariant forall k :: 0 <= k < i ==> children[k] == cs[k]
        invariant forall k :: i <= k < n ==> children[k + m] == cs[k]
        invariant forall j :: i <= j < n ==> cs[j].parent == this && cs[j].position == m + j
      {
        DistinctAt(cs, i);
        var c: BNode := children[i];
        SetChild(i + m, c);
        children[i] := null;
      }
    }

    /** insert_value on a leaf. */
    method InsertValue(i: nat, x: Entry)
      requires Rep() && leaf && i <= count < maxCount
      modifies `count, `vals, values
      ensures Rep() && vals == old(vals)[..i] + [x] + old(vals)[i..]
    {
      ShiftIn(values, count, i, x);
      vals := vals[..i] + [x] + vals[i..];
      count := count + 1;
    }

    /** remove_value on a leaf. */
    method RemoveValue(i: nat)
      requires Rep() && leaf && i < count
      modifies `count, `vals, values
      ensures Rep() && vals == old(vals)[..i] + old(vals)[i + 1..]
    {
      ShiftOut(values, count, i);
      vals := vals[..i] + vals[i + 1..];
      count := count - 1;
    }

    /** The second loop of insert_value: the children from position i + 1 on move one place up and leave a gap. */
    method OpenKids(i: nat, ghost cs: seq<BNode>)
      requires |cs| < children.Length && children[..|cs|] == cs && i < |cs| == count
      requires (forall j :: 0 <= j < |cs| ==> cs[j].position == j) && Distinct(cs)
      modifies children, (set c | c in cs)`position
      ensures children[..i + 1] == cs[..i + 1] && children[i + 2..count + 1] == cs[i + 1..]
      ensures forall j :: 0 <= j < |cs| ==> cs[j].position == if j <= i then j else j + 1
    {
      hide Distinct;
      var j := count;
      while j > i + 1
        invariant i + 1 <= j <= count
        invariant forall k :: 0 <= k < j ==> children[k] == cs[k]
        invariant forall k :: j <= k < count ==> children[k + 1] == cs[k]
        invariant forall k :: 0 <= k < count ==> cs[k].position == if k < j then k else k + 1
      {
        DistinctAt(cs, j - 1);
        children[j] := children[j - 1];
        children[j].position := j;
        j := j - 1;
      }
      children[i + 1] := null;
    }

    method CloseLoop(i: nat, ghost cs: seq<BNode>)
      requires |cs| <= children.Length && children[..|cs|] == cs && i + 1 < |cs| == count + 1
      requires (forall j :: 0 <= j < |cs| ==> cs[j].position == j) && Distinct(cs)
      modifies children, (set c | c in cs)`position
      ensures forall k :: 0 <= k <= i ==> children[k] == cs[k]
      ensures forall k :: i < k < count ==> children[k] == cs[k + 1]
      ensures forall j :: 0 <= j < |cs| && j != i + 1 ==> cs[j].position == if j <= i then j else j - 1
    {
      hide Distinct;
      var j := i + 1;
      while j < count
        invariant i + 1 <= j <= count
        invariant forall k :: 0 <= k <= i ==> children[k] == cs[k]
        invariant forall k :: i < k < j ==> children[k] == cs[k + 1]
        invariant forall k :: j <= k <= count ==> children[k] == cs[k]
        invariant forall k :: 0 <= k <= count ==> cs[k].position == if i + 1 < k <= j then k - 1 else k
      {
        DistinctAt(cs, j + 1);
        children[j] := children[j + 1];
        children[j].position := j;
        j := j + 1;
      }
    }

    /** The loop of remove_value over the children: those from position i + 2 on move one place down. */
    method CloseKids(i: nat, ghost cs: seq<BNode>)
      requires |cs| <= children.Length && children[..|cs|] == cs && i + 1 < |cs| == count + 1
      requires (forall j :: 0 <= j < |cs| ==> cs[j].position == j) && Distinct(cs)
      modifies children, (set c | c in cs)`position
      ensures children[..count] == cs[..i + 1] + cs[i + 2..]
      ensures forall j :: 0 <= j < |cs| && j != i + 1 ==> cs[j].position == if j <= i then j else j - 1
    {
      hide Distinct;
      CloseLoop(i, cs);
      ghost var t := children[..];
      children[count] := null;
      Closed(cs, t, count, i);
      assert children[..count] == t[..count];
    }

    /** The child moves of rebalance_right_to_left; this node had c and src had sc values. */
    method PullKids(src: BNode, c: nat, sc: nat, toMove: nat, ghost moved: seq<BNode>, ghost rest: seq<BNode>)
      requires this != src && children != src.children && Placed()
      requires Apart(kids, moved) && Apart(kids, rest) && Apart(moved, rest) && Distinct(moved) && Distinct(rest)
      requires this !in moved && src !in moved && this !in rest && src !in rest
      requires |kids| == c + 1 <= children.Length && children[..c + 1] == kids
      requires |moved| == toMove > 0 && src.kids == moved + rest && toMove <= src.children.Length
        && src.children[..toMove] == moved
      requires |rest| == sc + 1 - toMove >= 0 && sc + 1 <= src.children.Length && src.children[toMove..sc + 1] == rest
      requires c + 1 + toMove <= children.Length
      modifies `kids, children, src`kids, src.children, (set c | c in moved)`parent, (set c | c in moved)`position
      modifies (set c | c in rest)`parent, (set c | c in rest)`position
      ensures kids == old(kids) + moved && src.kids == rest
      ensures children[..|kids|] == kids && src.children[..|src.kids|] == src.kids && Placed() && src.Placed()
    {
      hide Distinct, PlacedIn;
      AdoptRange(1 + c, src, 0, toMove, false, moved);
      src.AdoptDown(toMove, sc - toMove + 1, rest);
      PlacedConcat(this, kids, moved);
      kids, src.kids := kids + moved, rest;
    }

    /** The value moves of rebalance_right_to_left. */
    method PullVals(p: BNode, src: BNode, toMove: nat)
      requires this != p && this != src && p != src && values != p.values && values != src.values && p.values != src.values
      requires ValsRep() && src.ValsRep() && p.ValsRep() && position < p.count
      requires 1 <= toMove <= src.count && count + toMove <= maxCount
      modifies `count, `vals, values, src`count, src`vals, src.values, p`vals, p.values
      ensures ValsRep() && src.ValsRep() && p.ValsRep()
      ensures vals == old(vals) + [old(p.vals[position])] + old(src.vals[..toMove - 1])
      ensures p.vals == old(p.vals)[position := old(src.vals[toMove - 1])]
      ensures src.vals == old(src.vals[toMove..])
    {
      PullValues(values, count, p.values, position, src.values, src.count, toMove);
      vals := vals + [p.vals[position]] + src.vals[..toMove - 1];
      p.vals := p.vals[position := src.vals[toMove - 1]];
      src.vals := src.vals[toMove..];
      count := count + toMove;
      src.count := src.count - toMove;
    }

    /** What the child moves between this node and its right sibling r rely on. */
    ghost predicate KidsBeside(p: BNode, r: BNode)
      reads this, p, r, children, p.children, r.children
    {
      && this != p && this != r && p != r && leaf == r.leaf && KidsRep() && r.KidsRep() && p.KidsRep()
      && children != p.children && p.children != r.children && (leaf || children != r.children)
      && this !in kids && r !in kids && p !in kids && this !in r.kids && r !in r.kids && p !in r.kids
      && Distinct(kids + r.kids)
    }

    /** This node and r are the children i and i + 1 of p, and nothing is shared. */
    ghost predicate Beside(p: BNode, r: BNode)
      reads this, p, r, values, children, p.values, p.children, r.values, r.children
    {
      && KidsBeside(p, r) && ValsRep() && p.ValsRep() && r.ValsRep() && parent == p && r.parent == p && r.position == position + 1
      && (!leaf ==> |kids| == count + 1 && |r.kids| == r.count + 1) && !p.leaf && |p.kids| == p.count + 1
      && position < p.count && p.kids[position] == this && p.kids[position + 1] == r
      && values != p.values && values != r.values && p.values != r.values
    }

    lemma KidsReady(p: BNode, src: BNode, toMove: nat)
      requires KidsBeside(p, src) && !leaf && toMove <= |src.kids|
      ensures var moved, rest := src.kids[..toMove], src.kids[toMove..];
        && Apart(kids, moved) && Apart(kids, rest) && Apart(moved, rest) && Distinct(moved) && Distinct(rest)
        && src.kids == moved + rest
    {
      hide Distinct;
      var moved, rest := src.kids[..toMove], src.kids[toMove..];
      assert src.kids == moved + rest;
      Parted(kids, src.kids);
      Parted(moved, rest);
    }

    method PullChildren(p: BNode, src: BNode, c: nat, sc: nat, toMove: nat)
      requires KidsBeside(p, src) && Placed() && src.Placed() && 1 <= toMove <= sc && c + toMove <= maxCount
      requires !leaf ==> |kids| == c + 1 && |src.kids| == sc + 1
      modifies `kids, children, src`kids, src.children
      modifies (set c | c in src.kids)`parent, (set c | c in src.kids)`position
      ensures KidsRep() && src.KidsRep() && Placed() && src.Placed() && p.children[..] == old(p.children[..])
      ensures kids + src.kids == old(kids + src.kids)
      ensures !leaf ==> |kids| == c + toMove + 1 && |src.kids| == sc - toMove + 1
    {
      hide Distinct, PlacedIn, Apart;
      if !leaf {
        KidsReady(p, src, toMove);
        ghost var moved, rest := src.kids[..toMove], src.kids[toMove..];
        PullKids(src, c, sc, toMove, moved, rest);
        assert (old(kids) + moved) + rest == old(kids) + (moved + rest);
      }
    }

    /** rebalance_right_to_left: toMove values go from the right sibling src over the parent to this node. */
    method RebalanceRightToLeft(p: BNode, src: BNode, toMove: nat)
      requires Beside(p, src) && Placed() && src.Placed() && 1 <= toMove <= src.count && count + toMove <= maxCount
      modifies `count, `vals, `kids, values, children, src`count, src`vals, src`kids, src.values, src.children, p`vals, p.values
      modifies (set c | c in src.kids)`parent, (set c | c in src.kids)`position
      ensures Rep() && src.Rep() && p.Rep() && Placed() && src.Placed()
      ensures position == old(position) < |old(p.vals)| && parent == old(parent)
      ensures vals == old(vals) + [old(p.vals[position])] + old(src.vals[..toMove - 1])
      ensures p.vals == old(p.vals)[position := old(src.vals[toMove - 1])]
      ensures src.vals == old(src.vals[toMove..])
      ensures kids + src.kids == old(kids + src.kids)
    {
      hide Distinct, PlacedIn;
      var c, sc := count, src.count;
      PullVals(p, src, toMove);
      PullChildren(p, src, c, sc, toMove);
    }

    // The same from left to right.

    method PushVals(p: BNode, dest: BNode, toMove: nat)
      requires this != p && this != dest && p != dest && values != p.values && values != dest.values && p.values != dest.values
      requires ValsRep() && dest.ValsRep() && p.ValsRep() && position < p.count
      requires 1 <= toMove <= count && dest.count + toMove <= dest.maxCount
      modifies `count, `vals, values, dest`count, dest`vals, dest.values, p`vals, p.values
      ensures ValsRep() && dest.ValsRep() && p.ValsRep()
      ensures vals == old(vals[..count - toMove])
      ensures p.vals == old(p.vals)[position := old(vals[count - toMove])]
      ensures dest.vals == old(vals[count - toMove + 1..]) + [old(p.vals[position])] + old(dest.vals)
    {
      PushValues(values, count, p.values, position, dest.values, dest.count, toMove);
      dest.vals := vals[count - toMove + 1..] + [p.vals[position]] + dest.vals;
      p.vals := p.vals[position := vals[count - toMove]];
      vals := vals[..count - toMove];
      count := count - toMove;
      dest.count := dest.count + toMove;
    }

    lemma KidsReadyRight(p: BNode, dest: BNode, keep: nat)
      requires KidsBeside(p, dest) && !leaf && keep <= |kids|
      ensures var rest, moved := kids[..keep], kids[keep..];
        && Apart(dest.kids, moved) && Apart(rest, dest.kids) && Apart(rest, moved) && Distinct(moved) && Distinct(dest.kids)
        && kids == rest + moved
    {
      hide Distinct;
      var rest, moved := kids[..keep], kids[keep..];
      assert kids == rest + moved;
      Parted(kids, dest.kids);
      Parted(rest, moved);
    }

    /** AdoptUp, next to the children of another node. */
    method MakeWay(m: nat, n: nat, ghost cs: seq<BNode>, ghost x: BNode, ghost rest: seq<BNode>, ghost moved: seq<BNode>)
      requires m > 0 && m + n <= children.Length && children[..n] == cs && Distinct(cs)
      requires Apart(rest, cs) && Apart(cs, moved) && PlacedIn(x, rest, 0) && x !in cs && x.children != children
      modifies children, (set c | c in cs)`parent, (set c | c in cs)`position
      ensures children[m..m + n] == cs && PlacedIn(this, cs, m) && PlacedIn(x, rest, 0)
    {
      hide Distinct;
      AdoptUp(m, n, cs);
    }

    /** AdoptRange in front of the node's own children. */
    method AdoptBefore(src: BNode, from: nat, n: nat, ghost cs: seq<BNode>, ghost ds: seq<BNode>, ghost rest: seq<BNode>)
      requires src != this && children != src.children && n <= children.Length && from + n <= src.children.Length
      requires src.children[from..from + n] == cs && Distinct(cs) && Apart(ds, cs) && Apart(rest, cs)
      requires PlacedIn(this, ds, n) && PlacedIn(src, rest, 0) && n + |ds| <= children.Length && children[n..n + |ds|] == ds
      requires |rest| == from && src.children[..from] == rest
      modifies children, src.children, (set c | c in cs)`parent, (set c | c in cs)`position
      ensures children[..n + |ds|] == cs + ds && src.children[..from] == rest
      ensures PlacedIn(this, cs + ds, 0) && PlacedIn(src, rest, 0)
    {
      hide Distinct;
      AdoptRange(0, src, from, n, true, cs);
      assert children[n..n + |ds|] == children[n..][..|ds|];
      assert children[..n + |ds|] == children[..n] + children[n..n + |ds|];
      PlacedConcat(this, cs, ds);
    }

    /** The child moves of rebalance_left_to_right; this node had c and dest had dc values. */
    method PushKids(dest: BNode, c: nat, dc: nat, toMove: nat, ghost rest: seq<BNode>, ghost moved: seq<BNode>)
      requires this != dest && children != dest.children && Placed()
      requires Apart(dest.kids, moved) && Apart(rest, dest.kids) && Apart(rest, moved) && Distinct(moved) && Distinct(dest.kids)
      requires this !in moved && dest !in moved && this !in dest.kids && dest !in dest.kids
      requires kids == rest + moved && |moved| == toMove && 1 <= toMove <= c && |kids| == c + 1 <= children.Length
      requires children[..c + 1 - toMove] == rest && children[c + 1 - toMove..c + 1] == moved
      requires |dest.kids| == dc + 1 && dc + 1 + toMove <= dest.children.Length && dest.children[..dc + 1] == dest.kids
      modifies `kids, children, dest`kids, dest.children, (set k | k in moved)`parent, (set k | k in moved)`position
      modifies (set k | k in dest.kids)`parent, (set k | k in dest.kids)`position
      ensures kids == rest && dest.kids == moved + old(dest.kids)
      ensures children[..|kids|] == kids && dest.children[..|dest.kids|] == dest.kids && Placed() && dest.Placed()
    {
      hide Distinct, PlacedIn, Apart;
      ghost var ds := dest.kids;
      PlacedSplit(this, rest, moved);
      dest.MakeWay(toMove, dc + 1, ds, this, rest, moved);
      dest.AdoptBefore(this, c + 1 - toMove, toMove, moved, ds, rest);
      kids, dest.kids := rest, moved + ds;
    }

    method PushChildren(p: BNode, dest: BNode, c: nat, dc: nat, toMove: nat)
      requires KidsBeside(p, dest) && Placed() && dest.Placed() && 1 <= toMove <= c && dc + toMove <= dest.maxCount
      requires !leaf ==> |kids| == c + 1 && |dest.kids| == dc + 1
      modifies `kids, children, dest`kids, dest.children
      modifies (set k | k in kids)`parent, (set k | k in kids)`position
      modifies (set k | k in dest.kids)`parent, (set k | k in dest.kids)`position
      ensures KidsRep() && dest.KidsRep() && Placed() && dest.Placed() && p.children[..] == old(p.children[..])
      ensures kids + dest.kids == old(kids + dest.kids)
      ensures !leaf ==> |kids| == c - toMove + 1 && |dest.kids| == dc + toMove + 1
    {
      hide Distinct, PlacedIn, Apart;
      if !leaf {
        KidsReadyRight(p, dest, c + 1 - toMove);
        ghost var rest, moved := kids[..c + 1 - toMove], kids[c + 1 - toMove..];
        PushKids(dest, c, dc, toMove, rest, moved);
        assert rest + (moved + old(dest.kids)) == (rest + moved) + old(dest.kids);
      }
    }

    /** rebalance_left_to_right: toMove values go from this node over the parent to the right sibling dest. */
    method RebalanceLeftToRight(p: BNode, dest: BNode, toMove: nat)
      requires Beside(p, dest) && Placed() && dest.Placed() && 1 <= toMove <= count && dest.count + toMove <= dest.maxCount
      modifies `count, `vals, `kids, values, children, dest`count, dest`vals, dest`kids, dest.values, dest.children,
        p`vals, p.values
      modifies (set k | k in kids)`parent, (set k | k in kids)`position
      modifies (set k | k in dest.kids)`parent, (set k | k in dest.kids)`position
      ensures Rep() && dest.Rep() && p.Rep() && Placed() && dest.Placed()
      ensures position == old(position) < |old(p.vals)| && parent == old(parent)
      ensures vals == old(vals[..count - toMove])
      ensures p.vals == old(p.vals)[position := old(vals[count - toMove])]
      ensures dest.vals == old(vals[count - toMove + 1..]) + [old(p.vals[position])] + old(dest.vals)
      ensures kids + dest.kids == old(kids + dest.kids)
    {
      hide Distinct, PlacedIn;
      var c, dc := count, dest.count;
      PushVals(p, dest, toMove);
      PushChildren(p, dest, c, dc, toMove);
    }

    // ---- Split and merge ----

    /** How many values split gives to the right sibling: biased by the position of the pending insertion. */
    function RightShare(insertPosition: nat): nat
      reads `count
    {
      if insertPosition == 0 then (if count == 0 then 0 else count - 1)
      else if insertPosition == maxCount then 0
      else count / 2
    }

    /** The sizes that split leaves: nothing on the side where the value is to come in at an end, and else even halves. */
    static predicate Biased(max: nat, insertPosition: nat, left: nat, right: nat) {
      if insertPosition == 0 then left == 0 else if insertPosition == max then right == 0 else 0 <= right - left <= 1
    }

    /** The value moves of split: dc values and the delimiter leave this node. */
    method SplitVals(p: BNode, dest: BNode, dc: nat)
      requires this != p && this != dest && p != dest && values != p.values && values != dest.values && p.values != dest.values
      requires ValsRep() && dest.ValsRep() && p.ValsRep() && dest.vals == [] && dc < count && dc <= dest.maxCount
      requires position <= p.count < p.maxCount
      modifies `count, `vals, values, dest`count, dest`vals, dest.values, p`count, p`vals, p.values
      ensures ValsRep() && dest.ValsRep() && p.ValsRep()
      ensures vals == old(vals[..count - dc - 1]) && dest.vals == old(vals[count - dc..])
      ensures p.vals == old(p.vals[..position]) + [old(vals[count - dc - 1])] + old(p.vals[position..])
    {
      SwapRange(values, count - dc, dest.values, 0, dc);
      dest.vals := vals[count - dc..];
      dest.count := dc;
      ghost var d := vals[count - dc - 1];
      vals := vals[..count - dc - 1];
      count := count - dc - 1;
      InsertDelimiter(p, d);
    }

    /** insert_value of a blank on the parent, then value_swap of the delimiter into it. */
    method InsertDelimiter(p: BNode, ghost d: Entry)
      requires this != p && values != p.values && ValsRep() && p.ValsRep() && position <= p.count < p.maxCount
      requires count < maxCount && values[count] == d
      modifies values, p`count, p`vals, p.values
      ensures ValsRep() && p.ValsRep()
      ensures p.vals == old(p.vals[..position]) + [d] + old(p.vals[position..])
    {
      var blank: Entry := *;
      ShiftIn(p.values, p.count, position, blank);
      values[count], p.values[position] := p.values[position], values[count];
      assert p.values[..p.count + 1] == p.vals[..position] + [d] + p.vals[position..];
      p.vals := p.vals[..position] + [d] + p.vals[position..];
      p.count := p.count + 1;
    }

    lemma PlacedInsert(p: BNode, cs: seq<BNode>, i: nat, dest: BNode)
      requires i < |cs| && dest.parent == p && dest.position == i + 1
      requires forall j :: 0 <= j < |cs| ==> cs[j].parent == p && cs[j].position == if j <= i then j else j + 1
      ensures PlacedIn(p, cs[..i + 1] + [dest] + cs[i + 1..], 0)
    {
    }

    lemma PlacedParts(p: BNode, cs: seq<BNode>)
      requires PlacedIn(p, cs, 0)
      ensures forall j :: 0 <= j < |cs| ==> cs[j].position == j
      ensures forall j :: 0 <= j < |cs| ==> cs[j].parent == p
    {
    }

    lemma Gapped(p: BNode, cs: seq<BNode>, t: seq<BNode?>, i: nat, n: nat, dest: BNode)
      requires i < |cs| == n < |t| && t[..i + 1] == cs[..i + 1] && t[i + 2..n + 1] == cs[i + 1..] && t[i + 1] == dest
      ensures t[..n + 1] == cs[..i + 1] + [dest] + cs[i + 1..]
    {
      assert t[..n + 1] == t[..i + 1] + [t[i + 1]] + t[i + 2..n + 1];
    }

    /** The children of the parent make room and take dest behind this node. */
    method InsertSibling(p: BNode, dest: BNode, ghost cs: seq<BNode>)
      requires p.kids == cs && cs != [] && |cs| == p.count < p.children.Length && p.children[..|cs|] == cs && position < |cs|
      requires Distinct(cs) && PlacedIn(p, cs, 0) && dest !in cs && cs[position] == this
      modifies p`kids, p.children, dest`parent, dest`position, (set k | k in cs)`position
      ensures position == old(position) < |cs|
      ensures p.kids == cs[..position + 1] + [dest] + cs[position + 1..]
      ensures p.children[..|p.kids|] == p.kids && PlacedIn(p, p.kids, 0)
    {
      hide Distinct, PlacedIn;
      var i := position;
      PlacedParts(p, cs);
      p.OpenKids(i, cs);
      assert position == i;
      ghost var t := p.children[..];
      p.SetChild(i + 1, dest);
      PlacedInsert(p, cs, i, dest);
      p.kids := cs[..i + 1] + [dest] + cs[i + 1..];
      Gapped(p, cs, t[i + 1 := dest], i, p.count, dest);
      assert p.children[..p.count + 1] == p.children[..][..p.count + 1];
    }

    /** The child moves of split; the node now has c values. */
    method SplitKids(dest: BNode, ghost rest: seq<BNode>, ghost moved: seq<BNode>)
      requires this != dest && children != dest.children && kids == rest + moved && Placed() && Apart(rest, moved)
        && Distinct(moved)
      requires this !in moved && dest !in moved && |rest| == count + 1 && |moved| == dest.count + 1
      requires |kids| <= children.Length && children[..|kids|] == kids && |moved| <= dest.children.Length
      modifies `kids, children, dest`kids, dest.children, (set k | k in moved)`parent, (set k | k in moved)`position
      ensures kids == rest && dest.kids == moved && Placed() && dest.Placed()
      ensures children[..|kids|] == kids && dest.children[..|dest.kids|] == dest.kids
    {
      hide Distinct, PlacedIn;
      PlacedSplit(this, rest, moved);
      assert children[count + 1..count + 1 + dest.count + 1] == moved;
      dest.AdoptRange(0, this, count + 1, dest.count + 1, true, moved);
      kids, dest.kids := rest, moved;
    }

    /** What the child moves of split rely on. */
    ghost predicate KidsSplit(p: BNode, dest: BNode)
      reads `kids, `position, p`kids, dest`kids, children, p.children, dest.children
      reads (set k | k in kids)`parent, (set k | k in kids)`position, (set k | k in p.kids)`parent, (set k | k in p.kids)`position
    {
      && this != p && this != dest && p != dest && KidsRep() && p.KidsRep() && !p.leaf
      && children != p.children && p.children != dest.children && (leaf || children != dest.children)
      && position < |p.kids| <= p.maxCount && p.kids[position] == this && Placed() && p.Placed()
      && dest.leaf == leaf && dest.maxCount == maxCount && dest.kids == []
      && dest.children.Length == (if leaf then 0 else maxCount + 1)
      && Distinct(kids) && Distinct(p.kids) && Apart(kids, p.kids)
      && dest !in p.kids && dest !in kids && this !in kids && p !in kids && p !in p.kids
    }

    /** This child of p is about to be split into itself and the new node dest. */
    ghost predicate Splits(p: BNode, dest: BNode)
      reads this, p, dest, values, children, p.values, p.children, dest.values, dest.children
      reads (set k | k in kids)`parent, (set k | k in kids)`position, (set k | k in p.kids)`parent, (set k | k in p.kids)`position
    {
      && KidsSplit(p, dest) && ValsRep() && p.ValsRep() && dest.ValsRep() && dest.vals == [] && count >= 1
      && |p.kids| == p.count + 1 && (!leaf ==> |kids| == count + 1)
      && values != p.values && values != dest.values && p.values != dest.values
    }

    lemma SplitApart(m: nat)
      requires Distinct(kids) && m <= |kids|
      ensures Distinct(kids[m..]) && Apart(kids[..m], kids[m..]) && kids == kids[..m] + kids[m..]
      ensures forall c :: c in kids[m..] ==> c in kids
    {
      assert kids == kids[..m] + kids[m..];
      Parted(kids[..m], kids[m..]);
    }

    method SplitChildren(p: BNode, dest: BNode)
      requires KidsSplit(p, dest) && |p.kids| == p.count && (!leaf ==> |kids| == count + 1 + dest.count + 1)
      modifies `kids, children, dest`parent, dest`position, dest`kids, dest.children, p`kids, p.children
      modifies (set k | k in kids)`parent, (set k | k in kids)`position, (set k | k in p.kids)`position
      ensures KidsRep() && p.KidsRep() && dest.KidsRep() && Placed() && p.Placed() && dest.Placed() && position == old(position)
      ensures kids + dest.kids == old(kids) && p.kids == old(p.kids)[..position + 1] + [dest] + old(p.kids)[position + 1..]
      ensures !leaf ==> |kids| == count + 1 && |dest.kids| == dest.count + 1
    {
      hide Distinct, PlacedIn;
      ghost var cs, ks := p.kids, kids;
      InsertSibling(p, dest, cs);
      StillApart(cs, position, dest, ks, ks);
      SplitOwnKids(p, dest, ks, p.kids);
    }

    /** The children that dest gets, if there are any; those of the parent stay where they are. */
    method SplitOwnKids(p: BNode, dest: BNode, ghost ks: seq<BNode>, ghost cs: seq<BNode>)
      requires this != p && this != dest && p != dest && (leaf || children != dest.children) && p.children != children
        && p.children != dest.children
      requires kids == ks && p.kids == cs && dest.kids == [] && KidsRep() && Placed() && Distinct(ks)
        && PlacedIn(p, cs, 0) && Apart(ks, cs)
      requires this !in ks && dest !in ks && dest.leaf == leaf && dest.maxCount == maxCount
      requires dest.children.Length == (if leaf then 0 else maxCount + 1)
      requires !leaf ==> |kids| == count + 1 + dest.count + 1
      modifies `kids, children, dest`kids, dest.children, (set k | k in ks)`parent, (set k | k in ks)`position
      ensures KidsRep() && dest.KidsRep() && Placed() && dest.Placed() && PlacedIn(p, cs, 0) && kids + dest.kids == ks
      ensures !leaf ==> |kids| == count + 1 && |dest.kids| == dest.count + 1
    {
      hide Distinct;
      if !leaf {
        SplitApart(count + 1);
        SplitKids(dest, kids[..count + 1], kids[count + 1..]);
      } else {
        PlacedNone(dest);
      }
    }

    static lemma PlacedNone(n: BNode)
      ensures PlacedIn(n, [], 0)
    {
    }

    static lemma StillApart(cs: seq<BNode>, i: nat, dest: BNode, ks: seq<BNode>, moved: seq<BNode>)
      requires i < |cs| && Apart(ks, cs) && dest !in ks && forall c :: c in moved ==> c in ks
      ensures Apart(moved, cs[..i + 1] + [dest] + cs[i + 1..])
    {
    }

    lemma KidsSplitNames(p: BNode, dest: BNode)
      requires KidsSplit(p, dest)
      ensures this != p && this != dest && p != dest && position < |p.kids| <= p.maxCount && dest.maxCount == maxCount
      ensures dest.leaf == leaf && !p.leaf
    {
    }

    /** The value moves of split, with the biased share. */
    method SplitValues(p: BNode, dest: BNode, insertPosition: nat)
      requires this != p && this != dest && p != dest && values != p.values && values != dest.values && p.values != dest.values
      requires ValsRep() && dest.ValsRep() && p.ValsRep() && dest.vals == [] && count >= 1
      requires position <= p.count < p.maxCount && dest.maxCount == maxCount
      modifies `count, `vals, values, dest`count, dest`vals, dest.values, p`count, p`vals, p.values
      ensures ValsRep() && dest.ValsRep() && p.ValsRep() && p.count == old(p.count) + 1 && old(count) == count + 1 + dest.count
      ensures Biased(maxCount, insertPosition, |vals|, |dest.vals|) && |vals| + 1 + |dest.vals| == |old(vals)|
      ensures vals == old(vals)[..|vals|] && dest.vals == old(vals)[|vals| + 1..]
      ensures p.vals == old(p.vals)[..position] + [old(vals)[|vals|]] + old(p.vals)[position..]
    {
      var share := RightShare(insertPosition);
      SplitVals(p, dest, share);
    }

    /** split: the values behind a biased middle go to dest, and the one before them to the parent. */
    method Split(p: BNode, dest: BNode, insertPosition: nat)
      requires Splits(p, dest)
      modifies `count, `vals, `kids, values, children, dest`count, dest`vals, dest`kids, dest`parent, dest`position
      modifies dest.values, dest.children, p`count, p`vals, p`kids, p.values, p.children
      modifies (set k | k in kids)`parent, (set k | k in kids)`position, (set k | k in p.kids)`position
      ensures Settled() && p.Settled() && dest.Settled() && position == old(position)
      ensures Biased(maxCount, insertPosition, |vals|, |dest.vals|) && |vals| + 1 + |dest.vals| == |old(vals)|
      ensures vals == old(vals)[..|vals|] && dest.vals == old(vals)[|vals| + 1..]
      ensures p.vals == old(p.vals)[..position] + [old(vals)[|vals|]] + old(p.vals)[position..]
      ensures kids + dest.kids == old(kids) && p.kids == old(p.kids)[..position + 1] + [dest] + old(p.kids)[position + 1..]
    {
      hide Distinct, PlacedIn, Apart, KidsSplit;
      KidsSplitNames(p, dest);
      SplitValues(p, dest, insertPosition);
      SplitChildren(p, dest);
    }

    /** The value moves of merge: the delimiter and the values of src come to this node, and leave a blank in the parent. */
    method MergeVals(p: BNode, src: BNode)
      requires this != p && this != src && p != src && values != p.values && values != src.values && p.values != src.values
      requires ValsRep() && src.ValsRep() && p.ValsRep() && position < p.count && 1 + count + src.count <= maxCount
      modifies `count, `vals, values, src`count, src`vals, src.values, p.values
      ensures ValsRep() && src.ValsRep() && src.vals == []
      ensures vals == old(vals) + [p.vals[position]] + old(src.vals)
      ensures forall i :: 0 <= i < p.count && i != position ==> p.values[i] == p.vals[i]
    {
      assert forall i :: 0 <= i < p.count ==> p.values[i] == p.values[..p.count][i];
      values[count], p.values[position] := p.values[position], values[count];
      SwapRange(values, 1 + count, src.values, 0, src.count);
      vals := vals + [p.vals[position]] + src.vals;
      count := 1 + count + src.count;
      src.vals := [];
      src.count := 0;
      assert values[..count] == vals;
    }

    /** remove_value on the values of the parent. */
    method RemoveDelimiter(p: BNode)
      requires this != p && values != p.values && position < p.count == |p.vals| <= p.maxCount == p.values.Length
      requires forall i :: 0 <= i < p.count && i != position ==> p.values[i] == p.vals[i]
      modifies p`count, p`vals, p.values
      ensures p.ValsRep() && p.vals == old(p.vals)[..position] + old(p.vals)[position + 1..]
    {
      ShiftOut(p.values, p.count, position);
      p.vals := p.vals[..position] + p.vals[position + 1..];
      p.count := p.count - 1;
    }

    lemma PlacedRemove(p: BNode, cs: seq<BNode>, i: nat)
      requires i + 1 < |cs|
      requires forall j :: 0 <= j < |cs| && j != i + 1 ==> cs[j].parent == p && cs[j].position == if j <= i then j else j - 1
      ensures PlacedIn(p, cs[..i + 1] + cs[i + 2..], 0)
    {
    }

    /** remove_value on the children of the parent: src, the right sibling, goes. */
    method RemoveSibling(p: BNode, src: BNode, ghost cs: seq<BNode>)
      requires p.kids == cs && |cs| == p.count + 1 <= p.children.Length && p.children[..|cs|] == cs && position + 1 < |cs|
      requires Distinct(cs) && PlacedIn(p, cs, 0) && cs[position] == this && cs[position + 1] == src && this != src
      modifies p`kids, p.children, (set k | k in cs)`position
      ensures position == old(position) && position + 1 < |cs| && p.kids == cs[..position + 1] + cs[position + 2..]
      ensures p.children[..|p.kids|] == p.kids && PlacedIn(p, p.kids, 0)
    {
      hide Distinct, PlacedIn;
      var i := position;
      PlacedParts(p, cs);
      DistinctAt(cs, i + 1);
      p.CloseKids(i, cs);
      assert position == i;
      PlacedRemove(p, cs, i);
      p.kids := cs[..i + 1] + cs[i + 2..];
    }

    /** The child moves of merge before the parent's; the nodes had c and sc values. */
    method MergeKids(src: BNode, c: nat, sc: nat)
      requires this != src && children != src.children && Placed() && Apart(kids, src.kids) && Distinct(src.kids)
      requires this !in src.kids && src !in src.kids && |kids| == c + 1 <= children.Length && children[..c + 1] == kids
      requires |src.kids| == sc + 1 <= src.children.Length && src.children[..sc + 1] == src.kids && c + sc + 2 <= children.Length
      modifies `kids, children, src`kids, src.children, (set k | k in src.kids)`parent, (set k | k in src.kids)`position
      ensures kids == old(kids) + old(src.kids) && children[..|kids|] == kids && Placed() && src.kids == []
    {
      hide Distinct, PlacedIn, Apart;
      ghost var moved := src.kids;
      MovedApart(kids, moved);
      AdoptRange(1 + c, src, 0, sc + 1, true, moved);
      assert children[..1 + c + (sc + 1)] == children[..1 + c] + children[1 + c..1 + c + (sc + 1)];
      PlacedConcat(this, kids, moved);
      kids := kids + moved;
      src.kids := [];
    }

    static lemma MovedApart(a: seq<BNode>, b: seq<BNode>)
      requires Apart(a, b)
      ensures forall c :: c in a ==> c !in b
    {
    }

    method MergeChildren(p: BNode, src: BNode, c: nat, sc: nat)
      requires KidsBeside(p, src) && Placed() && p.Placed() && !p.leaf && Distinct(p.kids) && Apart(kids + src.kids, p.kids)
      requires |p.kids| == p.count + 1 && position + 1 < |p.kids| && p.kids[position] == this && p.kids[position + 1] == src
      requires !leaf ==> |kids| == c + 1 && |src.kids| == sc + 1 && c + sc + 1 <= maxCount
      modifies `kids, children, src`kids, src.children, (set k | k in src.kids)`parent, (set k | k in src.kids)`position
      modifies p`kids, p.children, (set k | k in p.kids)`position
      ensures KidsRep() && p.KidsRep() && Placed() && p.Placed() && position == old(position) && position + 1 < |old(p.kids)|
      ensures kids == old(kids) + old(src.kids) && p.kids == old(p.kids)[..position + 1] + old(p.kids)[position + 2..]
    {
      hide Distinct, PlacedIn;
      if !leaf {
        Parted(kids, src.kids);
        MergeKids(src, c, sc);
      }
      RemoveSibling(p, src, p.kids);
    }

    /** This node and its right sibling src are about to become one. */
    ghost predicate Merges(p: BNode, src: BNode)
      reads this, p, src, values, children, p.values, p.children, src.values, src.children
      reads (set k | k in kids)`parent, (set k | k in kids)`position, (set k | k in p.kids)`parent, (set k | k in p.kids)`position
    {
      && Beside(p, src) && Placed() && p.Placed() && Distinct(p.kids) && Apart(kids + src.kids, p.kids)
      && 1 + count + src.count <= maxCount && p !in p.kids
    }

    /** merge: the delimiter and all of the right sibling src come to this node. */
    method Merge(p: BNode, src: BNode)
      requires Merges(p, src)
      modifies `count, `vals, `kids, values, children, src`count, src`vals, src`kids, src.values, src.children
      modifies p`count, p`vals, p`kids, p.values, p.children
      modifies (set k | k in src.kids)`parent, (set k | k in src.kids)`position, (set k | k in p.kids)`position
      ensures Settled() && p.Settled() && position == old(position) && position + 1 < |old(p.kids)|
      ensures vals == old(vals) + [old(p.vals[position])] + old(src.vals) && kids == old(kids) + old(src.kids)
      ensures p.vals == old(p.vals)[..position] + old(p.vals)[position + 1..]
      ensures p.kids == old(p.kids)[..position + 1] + old(p.kids)[position + 2..]
    {
      hide Distinct, PlacedIn, Apart;
      var c, sc := count, src.count;
      MergeVals(p, src);
      MergeChildren(p, src, c, sc);
      RemoveDelimiter(p);
    }

    // ---- Swap ----

    method SwapVals(x: BNode)
      requires this != x && values != x.values && ValsRep() && x.ValsRep() && count <= x.maxCount && x.count <= maxCount
      modifies `count, `vals, values, x`count, x`vals, x.values
      ensures ValsRep() && x.ValsRep() && vals == old(x.vals) && x.vals == old(vals)
    {
      var n := if count > x.count then count else x.count;
      SwapRange(values, 0, x.values, 0, n);
      vals, x.vals := x.vals, vals;
      count, x.count := x.count, count;
    }

    /** The last loops of swap: the first n children of the node get it as their parent. */
    method TakeOver(n: nat)
      requires n == |kids| <= children.Length && children[..n] == kids
      modifies (set k | k in kids)`parent
      ensures forall k :: k in kids ==> k.parent == this
    {
      ghost var cs := kids;
      for i := 0 to n
        invariant kids == cs && children[..n] == cs
        invariant forall j :: 0 <= j < i ==> cs[j].parent == this
      {
        assert children[i] == children[..n][i];
        children[i].parent := this;
      }
    }

    method SwapChildren(x: BNode, c: nat, xc: nat)
      requires this != x && children != x.children && !leaf && !x.leaf && KidsRep() && x.KidsRep() && Apart(kids, x.kids)
      requires |kids| == c + 1 && |x.kids| == xc + 1 && maxCount == x.maxCount
      modifies `kids, children, x`kids, x.children, (set k | k in kids)`parent, (set k | k in x.kids)`parent
      ensures KidsRep() && x.KidsRep() && kids == old(x.kids) && x.kids == old(kids)
      ensures (forall k :: k in kids ==> k.parent == this) && forall k :: k in x.kids ==> k.parent == x
    {
      SwapFronts(children, x.children, c + 1, xc + 1);
      kids, x.kids := x.kids, kids;
      x.TakeOver(c + 1);
      TakeOver(xc + 1);
    }

    /** swap, of two leaves. */
    method SwapLeaf(x: BNode)
      requires this != x && values != x.values && leaf && x.leaf && Rep() && x.Rep() && count <= x.maxCount && x.count <= maxCount
      modifies `count, `vals, values, x`count, x`vals, x.values
      ensures Rep() && x.Rep() && vals == old(x.vals) && x.vals == old(vals)
    {
      SwapVals(x);
    }

    /** swap, of two internal nodes; either may be among the children of the other or of itself. */
    method SwapInternal(x: BNode)
      requires this != x && values != x.values && children != x.children && !leaf && !x.leaf && Rep() && x.Rep()
      requires Apart(kids, x.kids) && maxCount == x.maxCount
      modifies `count, `vals, `kids, values, children, x`count, x`vals, x`kids, x.values, x.children
      modifies (set k | k in kids)`parent, (set k | k in x.kids)`parent
      ensures Rep() && x.Rep() && vals == old(x.vals) && x.vals == old(vals) && kids == old(x.kids) && x.kids == old(kids)
      ensures (forall k :: k in kids ==> k.parent == this) && forall k :: k in x.kids ==> k.parent == x
    {
      hide Apart;
      var c, xc := count, x.count;
      SwapVals(x);
      SwapChildren(x, c, xc);
    }

    // ---- Search ----

    /** The predicate the searches look past: keys below k, or for upper bounds keys not above k. */
    static predicate Before(key: Key, k: Key, upper: bool) {
      if upper then key <= k else key < k
    }

    /** linear_search_plain_compare */
    method LinearSearch(k: Key, upper: bool) returns (s: nat)
      requires ValsRep() && Sorted(vals)
      ensures s <= count && forall i :: 0 <= i < count ==> (Before(vals[i].key, k, upper) <==> i < s)
    {
      s := 0;
      while s < count
        invariant s <= count && forall i :: 0 <= i < s ==> Before(vals[i].key, k, upper)
      {
        assert values[s] == values[..count][s];
        if !Before(values[s].key, k, upper) {
          break;
        }
        s := s + 1;
      }
    }

    /** binary_search_plain_compare */
    method BinarySearch(k: Key, upper: bool) returns (s: nat)
      requires ValsRep() && Sorted(vals)
      ensures s <= count && forall i :: 0 <= i < count ==> (Before(vals[i].key, k, upper) <==> i < s)
    {
      var e := count;
      s := 0;
      while s != e
        invariant s <= e <= count
        invariant forall i :: 0 <= i < s ==> Before(vals[i].key, k, upper)
        invariant forall i :: e <= i < count ==> !Before(vals[i].key, k, upper)
        decreases e - s
      {
        var mid := (s + e) / 2;
        assert values[mid] == values[..count][mid];
        if Before(values[mid].key, k, upper) {
          s := mid + 1;
        } else {
          e := mid;
        }
      }
    }

    /** init_leaf */
    constructor NewLeaf(maxCount: nat, parent: BNode?)
      ensures leaf && this.maxCount == maxCount && this.parent == parent && Rep() && vals == [] && kids == []
      ensures fresh(values) && fresh(children) && position == 0 && count == 0
    {
      var blank: Entry := *;
      leaf, this.maxCount, position, count, this.parent := true, maxCount, 0, 0, parent;
      values, children := new Entry[maxCount](_ => blank), new BNode?[0];
      vals, kids := [], [];
    }

    /** init_internal: no value and no child yet. */
    constructor NewInternal(maxCount: nat, parent: BNode?)
      ensures !leaf && this.maxCount == maxCount && this.parent == parent && ValsRep() && vals == [] && kids == []
      ensures fresh(values) && fresh(children) && children.Length == maxCount + 1 && position == 0 && count == 0
    {
      var blank: Entry := *;
      leaf, this.maxCount, position, count, this.parent := false, maxCount, 0, 0, parent;
      values, children := new Entry[maxCount](_ => blank), new BNode?[maxCount + 1](_ => null);
      vals, kids := [], [];
    }
  }
}
