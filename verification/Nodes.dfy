/** The tree nodes and their in-place child containers.  One class stands for the node
    hierarchy; `tag` is what get_type() returns and selects the layout. */
module Nodes {
  import opened Bytes

  type Value(==, 0)

  datatype Tag = Leaf | Node4 | Node16 | Node48 | Node256 | Dummy

  /** The child_index entry of a byte without a child. */
  const EMPTY_MARKER: Byte := 63

  const MAX_PREFIX_LENGTH := 8

  predicate IsInner(tag: Tag) {
    tag != Leaf && tag != Dummy
  }

  function MinSize(tag: Tag): nat {
    match tag
    case Leaf => 1
    case Node4 => 2
    case Node16 => 5
    case Node48 => 17
    case Node256 => 49
    case Dummy => 0
  }

  function MaxSize(tag: Tag): nat {
    match tag
    case Leaf => 1
    case Node4 => 4
    case Node16 => 16
    case Node48 => 48
    case Node256 => 256
    case Dummy => 0
  }

  /** An all-zero prefix buffer. */
  const BLANK: seq<Byte> := [0, 0, 0, 0, 0, 0, 0, 0]

  /** std::move of n elements within one buffer, read as memmove. */
  method MoveWithin<T>(a: array<T>, from: nat, to: nat, n: nat)
    requires from + n <= a.Length && to + n <= a.Length
    modifies a
    ensures forall i :: 0 <= i < a.Length ==>
      a[i] == if to <= i < to + n then old(a[from + i - to]) else old(a[i])
  {
    if to <= from {
      for j := 0 to n
        invariant forall i :: 0 <= i < a.Length ==>
          a[i] == if to <= i < to + j then old(a[from + i - to]) else old(a[i])
      {
        a[to + j] := a[from + j];
      }
    } else {
      for j := n downto 0
        invariant forall i :: 0 <= i < a.Length ==>
          a[i] == if to + j <= i < to + n then old(a[from + i - to]) else old(a[i])
      {
        a[to + j] := a[from + j];
      }
    }
  }

  /** std::copy of the first n elements into another buffer. */
  method CopyInto<T>(src: array<T>, dst: array<T>, n: nat)
    requires n <= src.Length && n <= dst.Length && src != dst
    modifies dst
    ensures dst[..n] == src[..n]
  {
    for i := 0 to n
      invariant dst[..i] == src[..i]
    {
      dst[i] := src[i];
    }
  }

  /** Writes x at pos after moving the elements [pos, n) one place to the right. */
  method InsertAt<T>(a: array<T>, n: nat, pos: nat, x: T)
    requires pos <= n < a.Length
    modifies a
    ensures a[..n + 1] == old(a[..pos]) + [x] + old(a[pos..n])
  {
    if pos < n {
      MoveWithin(a, pos, pos + 1, n - pos);
    }
    a[pos] := x;
    ghost var s, t := old(a[..]), a[..];
    Spliced(s, t, n, pos, x);
    assert a[..n + 1] == t[..n + 1];
    assert old(a[..pos]) == s[..pos];
    assert old(a[pos..n]) == s[pos..n];
  }

  lemma Spliced<T>(s: seq<T>, t: seq<T>, n: nat, pos: nat, x: T)
    requires pos <= n < |s| == |t| && t[pos] == x
    requires forall i :: 0 <= i < pos ==> t[i] == s[i]
    requires forall i :: pos < i < n + 1 ==> t[i] == s[i - 1]
    ensures t[..n + 1] == s[..pos] + [x] + s[pos..n]
  {
    assert t[..n + 1] == t[..pos] + [t[pos]] + t[pos + 1..n + 1];
  }

  /** Overwrites the element at pos by moving the elements (pos, n) one place to the left. */
  method RemoveAt<T>(a: array<T>, n: nat, pos: nat)
    requires pos < n <= a.Length
    modifies a
    ensures a[..n - 1] == old(a[..pos]) + old(a[pos + 1..n])
  {
    MoveWithin(a, pos + 1, pos, n - (pos + 1));
  }

  ghost predicate Increasing(ks: seq<Byte>) {
    forall i, j :: 0 <= i < j < |ks| ==> ks[i] < ks[j]
  }

  ghost predicate Agree(ks: seq<Byte>, cs: seq<Node?>, kids: map<Byte, Node>) {
    |ks| == |cs| && forall i :: 0 <= i < |ks| ==> ks[i] in kids && cs[i] == kids[ks[i]]
  }

  ghost predicate Complete(ks: seq<Byte>, kids: map<Byte, Node>) {
    forall b :: b in kids ==> b in ks
  }

  /** ks lists the bytes of kids in increasing order and cs their nodes. */
  ghost predicate Lists(ks: seq<Byte>, cs: seq<Node?>, kids: map<Byte, Node>) {
    Increasing(ks) && Agree(ks, cs, kids) && Complete(ks, kids)
  }

  lemma IncreasingInsert(ks: seq<Byte>, pos: nat, b: Byte)
    requires Increasing(ks) && pos <= |ks|
    requires (forall i :: 0 <= i < pos ==> ks[i] < b) && (forall i :: pos <= i < |ks| ==> b < ks[i])
    ensures Increasing(ks[..pos] + [b] + ks[pos..])
  {
  }

  lemma AgreeInsert(ks: seq<Byte>, cs: seq<Node?>, kids: map<Byte, Node>, pos: nat, b: Byte, c: Node)
    requires Agree(ks, cs, kids) && pos <= |ks| && b !in kids
    ensures Agree(ks[..pos] + [b] + ks[pos..], cs[..pos] + [c] + cs[pos..], kids[b := c])
  {
  }

  lemma CompleteInsert(ks: seq<Byte>, kids: map<Byte, Node>, pos: nat, b: Byte, c: Node)
    requires Complete(ks, kids) && pos <= |ks|
    ensures Complete(ks[..pos] + [b] + ks[pos..], kids[b := c])
  {
    assert ks == ks[..pos] + ks[pos..];
  }

  lemma ListsInsert(ks: seq<Byte>, cs: seq<Node?>, kids: map<Byte, Node>, pos: nat, b: Byte, c: Node)
    requires Lists(ks, cs, kids) && pos <= |ks| && b !in kids
    requires (forall i :: 0 <= i < pos ==> ks[i] < b) && (forall i :: pos <= i < |ks| ==> b <= ks[i])
    ensures Lists(ks[..pos] + [b] + ks[pos..], cs[..pos] + [c] + cs[pos..], kids[b := c])
  {
    IncreasingInsert(ks, pos, b);
    AgreeInsert(ks, cs, kids, pos, b, c);
    CompleteInsert(ks, kids, pos, b, c);
  }

  lemma IncreasingRemove(ks: seq<Byte>, pos: nat)
    requires Increasing(ks) && pos < |ks|
    ensures Increasing(ks[..pos] + ks[pos + 1..])
    ensures ks[pos] !in ks[..pos] + ks[pos + 1..]
  {
  }

  lemma AgreeRemove(ks: seq<Byte>, cs: seq<Node?>, kids: map<Byte, Node>, pos: nat)
    requires Increasing(ks) && Agree(ks, cs, kids) && pos < |ks|
    ensures Agree(ks[..pos] + ks[pos + 1..], cs[..pos] + cs[pos + 1..], kids - {ks[pos]})
  {
  }

  lemma CompleteRemove(ks: seq<Byte>, kids: map<Byte, Node>, pos: nat)
    requires Complete(ks, kids) && pos < |ks|
    ensures Complete(ks[..pos] + ks[pos + 1..], kids - {ks[pos]})
  {
    assert ks == ks[..pos] + [ks[pos]] + ks[pos + 1..];
  }

  lemma ListsRemove(ks: seq<Byte>, cs: seq<Node?>, kids: map<Byte, Node>, pos: nat)
    requires Lists(ks, cs, kids) && pos < |ks|
    ensures Lists(ks[..pos] + ks[pos + 1..], cs[..pos] + cs[pos + 1..], kids - {ks[pos]})
  {
    IncreasingRemove(ks, pos);
    AgreeRemove(ks, cs, kids, pos);
    CompleteRemove(ks, kids, pos);
  }

  lemma ListsUpdate(ks: seq<Byte>, cs: seq<Node?>, kids: map<Byte, Node>, pos: nat, c: Node)
    requires Lists(ks, cs, kids) && pos < |ks|
    ensures Lists(ks, cs[pos := c], kids[ks[pos] := c])
  {
  }

  lemma CardinalityWithout(kids: map<Byte, Node>, b: Byte)
    requires b in kids
    ensures |kids - {b}| == |kids| - 1
  {
    assert kids == (kids - {b})[b := kids[b]];
  }

  /** Pigeonhole: distinct members of a set are no more than the set. */
  lemma {:induction false} DistinctFit(s: seq<Byte>, k: set<Byte>)
    requires forall i, j :: 0 <= i < j < |s| ==> s[i] != s[j]
    requires forall i :: 0 <= i < |s| ==> s[i] in k
    ensures |s| <= |k|
  {
    if |s| > 0 {
      DistinctFit(s[1..], k - {s[0]});
    }
  }

  /** The part of kids below the byte bound. */
  ghost function Below(kids: map<Byte, Node>, bound: int): map<Byte, Node> {
    map b | b in kids && b < bound :: kids[b]
  }

  lemma BelowStep(kids: map<Byte, Node>, i: Byte)
    ensures Below(kids, i + 1) == if i in kids then Below(kids, i)[i := kids[i]] else Below(kids, i)
    ensures i !in Below(kids, i) && |Below(kids, i + 1)| <= |kids|
  {
    BelowSize(kids, i + 1);
  }

  lemma BelowSize(kids: map<Byte, Node>, bound: int)
    ensures |Below(kids, bound)| <= |kids|
  {
    SubsetSize(Below(kids, bound).Keys, kids.Keys);
  }

  lemma {:induction false} SubsetSize(a: set<Byte>, b: set<Byte>)
    requires a <= b
    ensures |a| <= |b|
  {
    if x :| x in a {
      SubsetSize(a - {x}, b - {x});
    }
  }

  lemma BelowNone(kids: map<Byte, Node>)
    ensures Below(kids, 0) == map[]
  {
  }

  lemma BelowAll(kids: map<Byte, Node>)
    ensures Below(kids, 256) == kids
  {
  }

  lemma ListsAppend(ks: seq<Byte>, cs: seq<Node?>, kids: map<Byte, Node>, i: Byte)
    requires Lists(ks, cs, Below(kids, i)) && i in kids
    ensures Lists(ks + [i], cs + [kids[i]], Below(kids, i + 1))
  {
    ListsInsert(ks, cs, Below(kids, i), |ks|, i, kids[i]);
    assert ks[..|ks|] + [i] + ks[|ks|..] == ks + [i] && cs[..|ks|] + [kids[i]] + cs[|ks|..] == cs + [kids[i]];
    BelowStep(kids, i);
  }

  /** The part of kids whose bytes are among the first n of ks. */
  ghost function Listed(ks: seq<Byte>, kids: map<Byte, Node>, n: nat): map<Byte, Node>
    requires n <= |ks|
  {
    map b | b in kids && b in ks[..n] :: kids[b]
  }

  lemma ListedStep(ks: seq<Byte>, kids: map<Byte, Node>, n: nat)
    requires n < |ks| && Increasing(ks) && ks[n] in kids
    ensures Listed(ks, kids, n + 1) == Listed(ks, kids, n)[ks[n] := kids[ks[n]]]
    ensures ks[n] !in Listed(ks, kids, n)
  {
    assert ks[..n + 1] == ks[..n] + [ks[n]];
  }

  lemma ListedAll(ks: seq<Byte>, kids: map<Byte, Node>)
    requires Complete(ks, kids)
    ensures Listed(ks, kids, |ks|) == kids
  {
    assert ks[..|ks|] == ks;
  }

  /** x is the least byte of kids above lo. */
  ghost predicate LeastAbove(kids: map<Byte, Node>, lo: int, x: int) {
    x in kids && lo < x && forall y :: y in kids && lo < y ==> x <= y
  }

  /** x is the greatest byte of kids below hi. */
  ghost predicate GreatestBelow(kids: map<Byte, Node>, hi: int, x: int) {
    x in kids && x < hi && forall y :: y in kids && y < hi ==> y <= x
  }

  class Node {
    const tag: Tag
    /** The name of the node: the bytes all keys below it share; a leaf's whole key. */
    ghost const full: Str
    var parent: Node?

    // Leaves.
    const key: Str
    const value: Value

    // Inner nodes.  `bytes` is keys in a Node4 or Node16 and child_index in a Node48.
    var count: nat
    var depth: nat
    var prefixLength: nat
    var prefix: seq<Byte>
    const bytes: array<Byte>
    const children: array<Node?>

    // The dummy node.
    var root: Node?

    /** What the layout represents. */
    ghost var kids: map<Byte, Node>
    /** The byte that owns each slot of a Node48. */
    ghost var owner: seq<Byte>

    ghost predicate Sorted()
      reads `count, `kids, bytes, children
    {
      && bytes.Length == children.Length == MaxSize(tag) && count <= MaxSize(tag)
      && Lists(bytes[..count], children[..count], kids)
    }

    ghost predicate Indexed()
      reads `kids, `owner, bytes, children
    {
      && bytes.Length == 256 && children.Length == |owner| == 48
      && (forall b :: 0 <= b < 256 && b !in kids ==> bytes[b] == EMPTY_MARKER)
      && (forall b :: b in kids ==> bytes[b] < 48 && children[bytes[b]] == kids[b] && owner[bytes[b]] == b)
      && (forall i :: 0 <= i < 48 && children[i] != null ==> owner[i] in kids && bytes[owner[i]] == i)
    }

    ghost predicate Direct()
      reads `kids, children
    {
      && children.Length == 256
      && (forall b :: 0 <= b < 256 ==> children[b] == if b in kids then kids[b] else null)
    }

    /** The layout of an inner node holds exactly kids. */
    ghost predicate Rep()
      reads `count, `kids, `owner, bytes, children
    {
      && IsInner(tag) && count == |kids| <= MaxSize(tag)
      && ((tag == Node4 || tag == Node16) ==> Sorted())
      && (tag == Node48 ==> Indexed())
      && (tag == Node256 ==> Direct())
    }

    constructor Leaf(key: Str, value: Value, parent: Node?)
      ensures tag == Tag.Leaf && this.key == key && this.value == value && this.parent == parent && full == key
      ensures fresh(bytes) && fresh(children)
    {
      tag, full, this.key, this.value, this.parent := Tag.Leaf, key, key, value, parent;
      bytes, children := new Byte[0], new Node?[0];
      new;
    }

    /** The node above the root; its own parent. */
    constructor DummyNode()
      ensures tag == Dummy && parent == this && root == null && fresh(bytes) && fresh(children)
    {
      tag, full, parent, root := Dummy, [], this, null;
      bytes, children := new Byte[0], new Node?[0];
    }

    /** The leaf of the dummy node, without a key. */
    constructor BaseLeaf(parent: Node)
      ensures tag == Tag.Leaf && this.parent == parent && fresh(bytes) && fresh(children)
    {
      tag, full, key, this.parent := Tag.Leaf, [], [], parent;
      bytes, children := new Byte[0], new Node?[0];
    }

    /** An inner node around one child, which takes over the child's parent pointer. */
    constructor OneChild(child: Node, b: Byte, depth: nat, ghost full: Str)
      modifies child`parent
      ensures tag == Node4 && Rep() && kids == map[b := child] && count == 1
      ensures parent == old(child.parent) && child.parent == this
      ensures this.depth == depth && prefixLength == 0 && prefix == BLANK && this.full == full
      ensures fresh(bytes) && fresh(children)
    {
      tag, this.full, parent, count, this.depth := Node4, full, child.parent, 1, depth;
      prefixLength, prefix := 0, BLANK;
      kids := map[b := child];
      bytes, children := new Byte[4](_ => b), new Node?[4](_ => null);
      new;
      children[0] := child;
      child.parent := this;
      assert bytes[..count] == [b] && children[..count] == [child];
    }

    constructor GrowTo16(node: Node)
      requires node.tag == Node4 && node.Rep() && node.count == 4
      modifies node.kids.Values`parent
      ensures tag == Node16 && Rep() && fresh(bytes) && fresh(children)
      ensures full == node.full && parent == old(node.parent) && kids == node.kids
      ensures depth == node.depth && prefixLength == node.prefixLength && prefix == node.prefix
      ensures forall b :: b in kids ==> kids[b].parent == this
    {
      hide Lists, Increasing, Agree, Complete, Indexed, Direct;
      tag, full, parent, count, depth := Node16, node.full, node.parent, 4, node.depth;
      prefixLength, prefix, kids := node.prefixLength, node.prefix, node.kids;
      bytes, children := new Byte[16](_ => 0), new Node?[16](_ => null);
      new;
      CopySorted(node);
      AdoptSorted();
    }

    constructor ShrinkTo4(node: Node)
      requires node.tag == Node16 && node.Rep() && node.count == 4
      modifies node.kids.Values`parent
      ensures tag == Node4 && Rep() && fresh(bytes) && fresh(children)
      ensures full == node.full && parent == old(node.parent) && kids == node.kids
      ensures depth == node.depth && prefixLength == node.prefixLength && prefix == node.prefix
      ensures forall b :: b in kids ==> kids[b].parent == this
    {
      hide Lists, Increasing, Agree, Complete, Indexed, Direct;
      tag, full, parent, count, depth := Node4, node.full, node.parent, 4, node.depth;
      prefixLength, prefix, kids := node.prefixLength, node.prefix, node.kids;
      bytes, children := new Byte[4](_ => 0), new Node?[4](_ => null);
      new;
      CopySorted(node);
      AdoptSorted();
    }

    constructor ShrinkTo16(node: Node)
      requires node.tag == Node48 && node.Rep() && node.count == 16
      modifies node.kids.Values`parent
      ensures tag == Node16 && Rep() && fresh(bytes) && fresh(children)
      ensures full == node.full && parent == old(node.parent) && kids == node.kids
      ensures depth == node.depth && prefixLength == node.prefixLength && prefix == node.prefix
      ensures forall b :: b in kids ==> kids[b].parent == this
    {
      hide Lists, Increasing, Agree, Complete, Indexed, Direct;
      tag, full, parent, count, depth := Node16, node.full, node.parent, 16, node.depth;
      prefixLength, prefix, kids := node.prefixLength, node.prefix, node.kids;
      bytes, children := new Byte[16](_ => 0), new Node?[16](_ => null);
      new;
      ListIndexed(node);
      AdoptedSorted();
    }

    /** Lists the children of the indexed node in the order of their bytes and adopts them. */
    method ListIndexed(node: Node)
      requires node.Indexed() && kids == node.kids && this !in kids.Values
      requires bytes.Length == children.Length == MaxSize(tag) && |kids| == count <= MaxSize(tag)
      requires bytes != node.bytes && children != node.children
      modifies bytes, children, kids.Values`parent
      ensures Sorted()
      ensures forall j :: 0 <= j < count ==> children[j] != null && children[j].parent == this
    {
      var pos: nat := 0;
      for i := 0 to 256
        invariant pos == |Below(kids, i)| <= count
        invariant Lists(bytes[..pos], children[..pos], Below(kids, i))
        invariant forall j :: 0 <= j < pos ==> children[j] != null && children[j].parent == this
      {
        BelowStep(kids, i);
        if node.bytes[i] != EMPTY_MARKER {
          ListsAppend(bytes[..pos], children[..pos], kids, i);
          AdoptAt(pos, i, node.children[node.bytes[i]]);
          pos := pos + 1;
        }
      }
      BelowAll(kids);
    }

    method AdoptAt(pos: nat, b: Byte, c: Node)
      requires pos < bytes.Length && pos < children.Length && c != this
      requires forall j :: 0 <= j < pos ==> children[j] != null && children[j].parent == this
      modifies bytes, children, c`parent
      ensures bytes[..pos + 1] == old(bytes[..pos]) + [b]
      ensures children[..pos + 1] == old(children[..pos]) + [c]
      ensures forall j :: 0 <= j < pos + 1 ==> children[j] != null && children[j].parent == this
    {
      bytes[pos] := b;
      children[pos] := c;
      c.parent := this;
    }

    lemma NoneIndexed()
      requires kids == map[] && bytes.Length == 256 && children.Length == |owner| == 48
      requires (forall b :: 0 <= b < 256 ==> bytes[b] == EMPTY_MARKER) && forall i :: 0 <= i < 48 ==> children[i] == null
      ensures Indexed()
    {
    }

    constructor GrowTo48(node: Node)
      requires node.tag == Node16 && node.Rep() && node.count == 16
      modifies node.kids.Values`parent
      ensures tag == Node48 && Rep() && fresh(bytes) && fresh(children)
      ensures full == node.full && parent == old(node.parent) && kids == node.kids
      ensures depth == node.depth && prefixLength == node.prefixLength && prefix == node.prefix
      ensures forall b :: b in kids ==> kids[b].parent == this
    {
      hide Lists, Increasing, Agree, Complete, Direct, Indexed;
      tag, full, parent, count, depth := Node48, node.full, node.parent, 16, node.depth;
      prefixLength, prefix, kids := node.prefixLength, node.prefix, map[];
      bytes, children := new Byte[256](_ => EMPTY_MARKER), new Node?[48](_ => null);
      owner := seq(48, _ => 0);
      new;
      NoneIndexed();
      IndexSorted(node);
    }

    constructor ShrinkTo48(node: Node)
      requires node.tag == Node256 && node.Rep() && node.count == 48
      modifies node.kids.Values`parent
      ensures tag == Node48 && Rep() && fresh(bytes) && fresh(children)
      ensures full == node.full && parent == old(node.parent) && kids == node.kids
      ensures depth == node.depth && prefixLength == node.prefixLength && prefix == node.prefix
      ensures forall b :: b in kids ==> kids[b].parent == this
    {
      hide Lists, Increasing, Agree, Complete, Indexed;
      tag, full, parent, count, depth := Node48, node.full, node.parent, 48, node.depth;
      prefixLength, prefix, kids := node.prefixLength, node.prefix, map[];
      bytes, children := new Byte[256](_ => EMPTY_MARKER), new Node?[48](_ => null);
      owner := seq(48, _ => 0);
      new;
      NoneIndexed();
      IndexDirect(node);
    }

    constructor GrowTo256(node: Node)
      requires node.tag == Node48 && node.Rep() && node.count == 48
      modifies node.kids.Values`parent
      ensures tag == Node256 && Rep() && fresh(bytes) && fresh(children)
      ensures full == node.full && parent == old(node.parent) && kids == node.kids
      ensures depth == node.depth && prefixLength == node.prefixLength && prefix == node.prefix
      ensures forall b :: b in kids ==> kids[b].parent == this
    {
      tag, full, parent, count, depth := Node256, node.full, node.parent, 48, node.depth;
      prefixLength, prefix, kids := node.prefixLength, node.prefix, node.kids;
      bytes, children := new Byte[0], new Node?[256](_ => null);
      new;
      SpreadIndexed(node);
    }

    /** Gives the child c of byte b the free slot pos of an indexed node and adopts it. */
    method AdoptIndexed(pos: nat, b: Byte, c: Node)
      requires Indexed() && pos < 48 && children[pos] == null && b !in kids && c != this
      requires forall x :: x in kids ==> kids[x].parent == this
      modifies `kids, `owner, bytes, children, c`parent
      ensures Indexed() && kids == old(kids)[b := c]
      ensures forall i :: 0 <= i < 48 && i != pos ==> children[i] == old(children[i])
      ensures forall x :: x in kids ==> kids[x].parent == this
    {
      bytes[b] := pos;
      children[pos] := c;
      owner := owner[pos := b];
      kids := kids[b := c];
      c.parent := this;
    }

    method IndexSorted(node: Node)
      requires node.Sorted() && node.count == 16 && this !in node.kids.Values && this != node
      requires Indexed() && kids == map[] && bytes != node.bytes && children != node.children
      requires forall i :: 0 <= i < 48 ==> children[i] == null
      modifies `kids, `owner, bytes, children, node.kids.Values`parent
      ensures Indexed() && kids == node.kids
      ensures forall x :: x in kids ==> kids[x].parent == this
    {
      ghost var ks, cs := node.bytes[..16], node.children[..16];
      for i := 0 to 16
        invariant Indexed() && forall x :: x in kids ==> kids[x].parent == this
        invariant forall j :: i <= j < 48 ==> children[j] == null
        invariant node.bytes[..16] == ks && node.children[..16] == cs
        invariant kids == Listed(ks, node.kids, i)
      {
        ListedStep(ks, node.kids, i);
        assert node.bytes[i] == ks[i] && node.children[i] == cs[i];
        AdoptIndexed(i, node.bytes[i], node.children[i]);
      }
      ListedAll(ks, node.kids);
    }

    method IndexDirect(node: Node)
      requires node.Direct() && |node.kids| == 48 && this !in node.kids.Values && this != node && children.Length == 48
      requires Indexed() && kids == map[] && children != node.children
      requires forall i :: 0 <= i < 48 ==> children[i] == null
      modifies `kids, `owner, bytes, children, node.kids.Values`parent
      ensures Indexed() && kids == node.kids
      ensures forall x :: x in kids ==> kids[x].parent == this
    {
      hide Indexed, Below;
      BelowNone(node.kids);
      var pos: nat := 0;
      for i := 0 to 256
        invariant Indexed() && forall x :: x in kids ==> kids[x].parent == this
        invariant pos == |Below(node.kids, i)| <= 48
        invariant forall j :: pos <= j < 48 ==> children[j] == null
        invariant kids == Below(node.kids, i)
      {
        BelowStep(node.kids, i);
        if node.children[i] != null {
          AdoptIndexed(pos, i, node.children[i]);
          pos := pos + 1;
        }
      }
      BelowAll(node.kids);
    }

    method SpreadIndexed(node: Node)
      requires node.Indexed() && kids == node.kids && this !in kids.Values && this != node
      requires children.Length == 256 && children != node.children
      requires forall i :: 0 <= i < 256 ==> children[i] == null
      modifies children, kids.Values`parent
      ensures Direct()
      ensures forall x :: x in kids ==> kids[x].parent == this
    {
      for i := 0 to 256
        invariant forall b :: 0 <= b < i ==> children[b] == if b in kids then kids[b] else null
        invariant forall b :: i <= b < 256 ==> children[b] == null
        invariant forall b :: b in kids && b < i ==> kids[b].parent == this
      {
        if node.bytes[i] != EMPTY_MARKER {
          children[i] := node.children[node.bytes[i]];
          children[i].parent := this;
        }
      }
    }

    /** Takes over the arrays of the sorted node. */
    method CopySorted(node: Node)
      requires node.Sorted() && count == node.count <= MaxSize(tag) && kids == node.kids
      requires bytes.Length == children.Length == MaxSize(tag)
      requires bytes != node.bytes && children != node.children
      modifies bytes, children
      ensures Sorted()
    {
      CopyInto(node.bytes, bytes, count);
      CopyInto(node.children, children, count);
    }

    method AdoptSorted()
      requires Sorted() && this !in kids.Values
      modifies kids.Values`parent
      ensures forall b :: b in kids ==> kids[b].parent == this
    {
      hide Sorted, Lists, Increasing, Agree, Complete;
      SortedAll();
      var i: nat := 0;
      while i < count
        invariant i <= count && Sorted()
        invariant forall j :: 0 <= j < i ==> children[j] != null && children[j].parent == this
      {
        children[i].parent := this;
        i := i + 1;
      }
      AdoptedSorted();
    }

    lemma SortedAll()
      requires Sorted()
      ensures count <= children.Length
      ensures forall i :: 0 <= i < count ==> children[i] != null && children[i] in kids.Values
    {
      forall i | 0 <= i < count ensures children[i] != null && children[i] in kids.Values {
        assert children[..count][i] == children[i] && bytes[..count][i] in kids;
      }
    }

    lemma AdoptedSorted()
      requires Sorted() && forall j :: 0 <= j < count ==> children[j] != null && children[j].parent == this
      ensures forall b :: b in kids ==> kids[b].parent == this
    {
      forall b | b in kids ensures kids[b].parent == this {
        var i :| 0 <= i < count && bytes[..count][i] == b;
        assert children[..count][i] == children[i];
      }
    }

    /** The position of the first of the sorted keys that is at least b. */
    method LowerPos(b: Byte) returns (pos: nat)
      requires Sorted()
      ensures pos <= count
      ensures forall i :: 0 <= i < pos ==> bytes[i] < b
      ensures forall i :: pos <= i < count ==> b <= bytes[i]
    {
      pos := 0;
      while pos < count && bytes[pos] < b
        invariant pos <= count
        invariant forall i :: 0 <= i < pos ==> bytes[i] < b
      {
        pos := pos + 1;
      }
    }

    /** Opens a gap at pos in both arrays and fills it. */
    method SpliceIn(pos: nat, b: Byte, c: Node)
      requires bytes.Length == children.Length == MaxSize(tag) && pos <= count < MaxSize(tag)
      modifies this`count, bytes, children
      ensures count == old(count) + 1
      ensures bytes[..count] == old(bytes[..count])[..pos] + [b] + old(bytes[..count])[pos..]
      ensures children[..count] == old(children[..count])[..pos] + [c] + old(children[..count])[pos..]
    {
      ghost var ks, cs := bytes[..count], children[..count];
      InsertAt(bytes, count, pos, b);
      InsertAt(children, count, pos, c);
      count := count + 1;
      assert bytes[..count] == ks[..pos] + [b] + ks[pos..];
      assert children[..count] == cs[..pos] + [c] + cs[pos..];
    }

    method InsertSorted(b: Byte, c: Node)
      requires Sorted() && b !in kids && count < MaxSize(tag)
      modifies this`count, this`kids, bytes, children
      ensures Sorted() && kids == old(kids)[b := c] && count == old(count) + 1
    {
      var pos := LowerPos(b);
      ListsInsert(bytes[..count], children[..count], kids, pos, b, c);
      SpliceIn(pos, b, c);
      kids := kids[b := c];
    }
  
    /** Closes the gap at pos in both arrays. */
    method SpliceOut(pos: nat)
      requires bytes.Length == children.Length == MaxSize(tag) && pos < count <= MaxSize(tag)
      modifies this`count, bytes, children
      ensures count == old(count) - 1
      ensures bytes[..count] == old(bytes[..count])[..pos] + old(bytes[..count])[pos + 1..]
      ensures children[..count] == old(children[..count])[..pos] + old(children[..count])[pos + 1..]
    {
      ghost var ks, cs := bytes[..count], children[..count];
      RemoveAt(bytes, count, pos);
      RemoveAt(children, count, pos);
      count := count - 1;
      assert bytes[..count] == ks[..pos] + ks[pos + 1..];
      assert children[..count] == cs[..pos] + cs[pos + 1..];
    }

    /** The position of the present byte b. */
    method PosOf(b: Byte) returns (pos: nat)
      requires Sorted()
      ensures pos <= count
      ensures b in kids ==> pos < count && bytes[pos] == b
      ensures b !in kids ==> pos == count || bytes[pos] != b
    {
      pos := LowerPos(b);
      assert pos < count ==> bytes[..count][pos] == bytes[pos];
      if b in kids {
        assert b in bytes[..count];
      }
    }

    method EraseSorted(b: Byte)
      requires Sorted() && b in kids
      modifies this`count, this`kids, bytes, children
      ensures Sorted() && kids == old(kids) - {b} && count == old(count) - 1
    {
      var pos := PosOf(b);
      ListsRemove(bytes[..count], children[..count], kids, pos);
      SpliceOut(pos);
      kids := kids - {b};
    }

    method FindSorted(b: Byte) returns (c: Node?)
      requires Sorted()
      ensures c == if b in kids then kids[b] else null
    {
      var pos := PosOf(b);
      if pos < count && bytes[pos] == b {
        assert bytes[..count][pos] == b && children[..count][pos] == children[pos];
        return children[pos];
      }
      return null;
    }

    method UpdateSorted(b: Byte, c: Node)
      requires Sorted()
      modifies this`kids, children
      ensures Sorted() && kids == if b in old(kids) then old(kids)[b := c] else old(kids)
    {
      var pos := PosOf(b);
      if pos < count && bytes[pos] == b {
        assert bytes[..count][pos] == b;
        ListsUpdate(bytes[..count], children[..count], kids, pos, c);
        ghost var cs := children[..count];
        children[pos] := c;
        assert children[..count] == cs[pos := c];
        kids := kids[b := c];
      }
    }

    method InsertIndexed(b: Byte, c: Node)
      requires Indexed() && b !in kids && |kids| < 48
      modifies this`kids, this`owner, bytes, children
      ensures Indexed() && kids == old(kids)[b := c]
    {
      var pos: nat := 0;
      while pos < 48 && children[pos] != null
        invariant pos <= 48
        invariant forall i :: 0 <= i < pos ==> children[i] != null
      {
        pos := pos + 1;
      }
      if pos == 48 {
        DistinctFit(owner, kids.Keys);
        assert false;
      }
      bytes[b] := pos;
      children[pos] := c;
      owner := owner[pos := b];
      kids := kids[b := c];
    }

    method EraseIndexed(b: Byte)
      requires Indexed() && b in kids
      modifies this`kids, bytes, children
      ensures Indexed() && kids == old(kids) - {b}
    {
      children[bytes[b]] := null;
      bytes[b] := EMPTY_MARKER;
      kids := kids - {b};
    }
  
    method FindIndexed(b: Byte) returns (c: Node?)
      requires Indexed()
      ensures c == if b in kids then kids[b] else null
    {
      if bytes[b] != EMPTY_MARKER {
        return children[bytes[b]];
      }
      return null;
    }

    method UpdateIndexed(b: Byte, c: Node)
      requires Indexed()
      modifies this`kids, children
      ensures Indexed() && kids == if b in old(kids) then old(kids)[b := c] else old(kids)
    {
      if bytes[b] != EMPTY_MARKER {
        children[bytes[b]] := c;
        kids := kids[b := c];
      }
    }

    method UpdateDirect(b: Byte, c: Node)
      requires Direct()
      modifies this`kids, children
      ensures Direct() && kids == if b in old(kids) then old(kids)[b := c] else old(kids)
    {
      if children[b] != null {
        children[b] := c;
        kids := kids[b := c];
      }
    }

    /** The first child after the byte lo; from lo = -1 the first child of all. */
    method NextSorted(lo: int) returns (c: Node?, ghost x: int)
      requires Sorted() && -1 <= lo < 256
      ensures c == null ==> forall y :: y in kids ==> y <= lo
      ensures c != null ==> LeastAbove(kids, lo, x) && kids[x] == c
    {
      var pos: nat := 0;
      while pos < count && bytes[pos] <= lo
        invariant pos <= count
        invariant forall i :: 0 <= i < pos ==> bytes[..count][i] <= lo
      {
        pos := pos + 1;
      }
      if pos < count {
        c, x := children[pos], bytes[pos];
        assert children[..count][pos] == c && bytes[..count][pos] == x;
      } else {
        c, x := null, 0;
      }
    }

    /** The last child before the byte hi; from hi = 256 the last child of all. */
    method PrevSorted(hi: int) returns (c: Node?, ghost x: int)
      requires Sorted() && 0 <= hi <= 256
      ensures c == null ==> forall y :: y in kids ==> hi <= y
      ensures c != null ==> GreatestBelow(kids, hi, x) && kids[x] == c
    {
      var pos: int := count - 1;
      while pos >= 0 && bytes[pos] >= hi
        invariant -1 <= pos < count
        invariant forall i :: pos < i < count ==> bytes[..count][i] >= hi
      {
        pos := pos - 1;
      }
      if pos >= 0 {
        c, x := children[pos], bytes[pos];
        assert children[..count][pos] == c && bytes[..count][pos] == x;
      } else {
        c, x := null, 0;
      }
    }

    method NextIndexed(lo: int) returns (c: Node?, ghost x: int)
      requires Indexed() && -1 <= lo < 256
      ensures c == null ==> forall y :: y in kids ==> y <= lo
      ensures c != null ==> LeastAbove(kids, lo, x) && kids[x] == c
    {
      for pos := lo + 1 to 256
        invariant forall y :: lo < y < pos ==> y !in kids
      {
        if bytes[pos] != EMPTY_MARKER {
          return children[bytes[pos]], pos;
        }
      }
      return null, 0;
    }

    method PrevIndexed(hi: int) returns (c: Node?, ghost x: int)
      requires Indexed() && 0 <= hi <= 256
      ensures c == null ==> forall y :: y in kids ==> hi <= y
      ensures c != null ==> GreatestBelow(kids, hi, x) && kids[x] == c
    {
      for pos := hi downto 0
        invariant forall y :: pos <= y < hi ==> y !in kids
      {
        if bytes[pos] != EMPTY_MARKER {
          return children[bytes[pos]], pos;
        }
      }
      return null, 0;
    }

    method NextDirect(lo: int) returns (c: Node?, ghost x: int)
      requires Direct() && -1 <= lo < 256
      ensures c == null ==> forall y :: y in kids ==> y <= lo
      ensures c != null ==> LeastAbove(kids, lo, x) && kids[x] == c
    {
      for pos := lo + 1 to 256
        invariant forall y :: lo < y < pos ==> y !in kids
      {
        if children[pos] != null {
          return children[pos], pos;
        }
      }
      return null, 0;
    }

    method PrevDirect(hi: int) returns (c: Node?, ghost x: int)
      requires Direct() && 0 <= hi <= 256
      ensures c == null ==> forall y :: y in kids ==> hi <= y
      ensures c != null ==> GreatestBelow(kids, hi, x) && kids[x] == c
    {
      for pos := hi downto 0
        invariant forall y :: pos <= y < hi ==> y !in kids
      {
        if children[pos] != null {
          return children[pos], pos;
        }
      }
      return null, 0;
    }

    // The virtual operations: one map from bytes to children behind four layouts.

    method Insert(b: Byte, c: Node)
      requires Rep() && b !in kids && count < MaxSize(tag)
      modifies this`count, this`kids, this`owner, bytes, children
      ensures Rep() && kids == old(kids)[b := c] && count == old(count) + 1
    {
      match tag
      case Node4 => InsertSorted(b, c);
      case Node16 => InsertSorted(b, c);
      case Node48 => InsertIndexed(b, c); count := count + 1;
      case Node256 =>
        children[b] := c;
        kids := kids[b := c];
        count := count + 1;
    }

    method Erase(b: Byte)
      requires Rep() && b in kids
      modifies this`count, this`kids, bytes, children
      ensures Rep() && kids == old(kids) - {b} && count == old(count) - 1
    {
      CardinalityWithout(kids, b);
      match tag
      case Node4 => EraseSorted(b);
      case Node16 => EraseSorted(b);
      case Node48 => EraseIndexed(b); count := count - 1;
      case Node256 =>
        children[b] := null;
        kids := kids - {b};
        count := count - 1;
    }

    method Find(b: Byte) returns (c: Node?)
      requires Rep()
      ensures c == if b in kids then kids[b] else null
    {
      match tag
      case Node4 => c := FindSorted(b);
      case Node16 => c := FindSorted(b);
      case Node48 => c := FindIndexed(b);
      case Node256 => c := children[b];
    }

    method UpdateChild(b: Byte, c: Node)
      requires Rep()
      modifies this`kids, children
      ensures Rep() && kids == if b in old(kids) then old(kids)[b := c] else old(kids)
    {
      match tag
      case Node4 => UpdateSorted(b, c);
      case Node16 => UpdateSorted(b, c);
      case Node48 => UpdateIndexed(b, c);
      case Node256 => UpdateDirect(b, c);
    }

    method Next(lo: int) returns (c: Node?, ghost x: int)
      requires Rep() && -1 <= lo < 256
      ensures c == null ==> forall y :: y in kids ==> y <= lo
      ensures c != null ==> LeastAbove(kids, lo, x) && kids[x] == c
    {
      match tag
      case Node4 => c, x := NextSorted(lo);
      case Node16 => c, x := NextSorted(lo);
      case Node48 => c, x := NextIndexed(lo);
      case Node256 => c, x := NextDirect(lo);
    }

    method Prev(hi: int) returns (c: Node?, ghost x: int)
      requires Rep() && 0 <= hi <= 256
      ensures c == null ==> forall y :: y in kids ==> hi <= y
      ensures c != null ==> GreatestBelow(kids, hi, x) && kids[x] == c
    {
      match tag
      case Node4 => c, x := PrevSorted(hi);
      case Node16 => c, x := PrevSorted(hi);
      case Node48 => c, x := PrevIndexed(hi);
      case Node256 => c, x := PrevDirect(hi);
    }
  }
}
