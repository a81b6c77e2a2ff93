/** The abstract radix trie: what a linked radix tree means once pointers, layouts and
    stored prefix bytes are forgotten.  Every node is named by the bytes that all keys
    below it share. */
module Tries {
  import opened Bytes

  /** An inner node s maps each branching byte to the name of the child below it. */
  datatype Trie = Trie(root: Str, inner: map<Str, map<Byte, Str>>, keys: set<Str>) {

    function Nodes(): set<Str> { inner.Keys + keys }

    /** c is the child of s at byte b. */
    ghost predicate Child(s: Str, b: Byte, c: Str) {
      s in inner && b in inner[s] && inner[s][b] == c
    }

    /** The child of s on the way to t is at or above t. */
    ghost predicate Descends(s: Str, t: Str)
      requires s in inner && Extends(s, t)
    {
      t[|s|] in inner[s] && inner[s][t[|s|]] <= t
    }

    /** The child of s at b extends s by b. */
    ghost predicate ChildOk(s: Str, b: Byte)
      requires s in inner && b in inner[s]
    {
      var c := inner[s][b];
      c in Nodes() && Extends(s, c) && c[|s|] == b
    }

    ghost predicate Sized(length: nat) {
      && (forall k :: k in keys ==> |k| == length)
      && (forall s :: s in inner ==> |s| < length)
    }

    ghost predicate Branches(s: Str, least: nat)
      requires s in inner
    {
      |inner[s]| >= least
    }

    /** No inner node is childless. */
    ghost predicate Inhabited() {
      forall s {:trigger Branches(s, 1)} :: s in inner ==> Branches(s, 1)
    }

    ghost predicate Rooted() {
      root in Nodes() && forall s :: s in Nodes() ==> root <= s
    }

    /** Well-formed over keys of length length: children extend their parent by their byte, and
        every node that extends s is at or below the child of s it points to. */
    ghost predicate WF(length: nat) {
      && Sized(length)
      && Rooted()
      && (forall s, b :: s in inner && b in inner[s] ==> ChildOk(s, b))
      && (forall s, t :: s in inner && t in Nodes() && Extends(s, t) ==> Descends(s, t))
    }

    /** Path compression: every inner node except hole branches. */
    ghost predicate CompressedBut(hole: Str) {
      forall s {:trigger Branches(s, 2)} :: s in inner && s != hole ==> Branches(s, 2)
    }

    ghost predicate Compressed() {
      forall s {:trigger Branches(s, 2)} :: s in inner ==> Branches(s, 2)
    }

    /** Puts the one-child inner node c[..n] between c and its parent p (or above the root). */
    function Interpose(p: Str, c: Str, n: nat): Trie
      requires n < |c|
      requires c == root || (p in inner && |p| < |c|)
    {
      var t := c[..n];
      if c == root then Trie(t, inner[t := map[c[n] := c]], keys)
      else Trie(root, inner[p := inner[p][c[|p|] := t]][t := map[c[n] := c]], keys)
    }

    /** Hangs the key k below the inner node s. */
    function Hang(s: Str, k: Str): Trie
      requires s in inner && |s| < |k|
    {
      Trie(root, inner[s := inner[s][k[|s|] := k]], keys + {k})
    }

    /** Takes the key k away from below the inner node s. */
    function Unhang(s: Str, k: Str): Trie
      requires s in inner && |s| < |k|
    {
      Trie(root, inner[s := inner[s] - {k[|s|]}], keys - {k})
    }

    /** Replaces the one-child inner node s below p (or at the root) by its child c. */
    function Contract(p: Str, s: Str, c: Str): Trie
      requires s == root || (p in inner && |p| < |s|)
    {
      if s == root then Trie(c, inner - {s}, keys)
      else Trie(root, inner[p := inner[p][s[|p|] := c]] - {s}, keys)
    }
  }

  /** No node is the child of two. */
  lemma ParentUnique(tr: Trie, length: nat, s1: Str, b1: Byte, s2: Str, b2: Byte, c: Str)
    requires tr.WF(length) && tr.Child(s1, b1, c) && tr.Child(s2, b2, c)
    ensures s1 == s2 && b1 == b2
  {
    assert tr.ChildOk(s1, b1) && tr.ChildOk(s2, b2);
    assert s1 == c[..|s1|] && s2 == c[..|s2|];
    assert !Extends(s1, s2) by {
      assert Extends(s1, s2) ==> tr.Descends(s1, s2);
    }
    assert !Extends(s2, s1) by {
      assert Extends(s2, s1) ==> tr.Descends(s2, s1);
    }
  }

  /** Every node has a key at or below it. */
  lemma {:induction false} KeyBelow(tr: Trie, length: nat, s: Str) returns (k: Str)
    requires tr.WF(length) && tr.Inhabited() && s in tr.Nodes()
    ensures k in tr.keys && s <= k
    decreases length - |s|
  {
    if s in tr.keys {
      k := s;
    } else {
      assert tr.Branches(s, 1);
      var b :| b in tr.inner[s];
      assert tr.ChildOk(s, b);
      k := KeyBelow(tr, length, tr.inner[s][b]);
    }
  }

  lemma InterposeNew(tr: Trie, length: nat, p: Str, c: Str, n: nat)
    requires tr.WF(length) && c in tr.Nodes() && n < |c|
    requires c == tr.root || (|p| < n && tr.Child(p, c[|p|], c))
    ensures c[..n] !in tr.Nodes()
    ensures forall u :: u in tr.Nodes() && Extends(c[..n], u) ==> c <= u
  {
    var t := c[..n];
    if c != tr.root {
      assert tr.ChildOk(p, c[|p|]);
      assert t in tr.Nodes() ==> tr.Descends(p, t);
      forall u | u in tr.Nodes() && Extends(t, u) ensures c <= u {
        assert u[|p|] == t[|p|] == c[|p|];
        assert Extends(p, u) && tr.Descends(p, u);
      }
    }
  }

  lemma InterposeChild(tr: Trie, length: nat, p: Str, c: Str, n: nat, s: Str, b: Byte)
    requires tr.WF(length) && c in tr.Nodes() && n < |c|
    requires c == tr.root || (|p| < n && tr.Child(p, c[|p|], c))
    requires s in tr.Interpose(p, c, n).inner && b in tr.Interpose(p, c, n).inner[s]
    ensures tr.Interpose(p, c, n).ChildOk(s, b)
  {
    var t := c[..n];
    if s != t && !(s == p && c != tr.root && b == c[|p|]) {
      assert tr.ChildOk(s, b);
    } else {
      assert c != tr.root ==> tr.ChildOk(p, c[|p|]);
    }
  }

  lemma InterposeDescends(tr: Trie, length: nat, p: Str, c: Str, n: nat, s: Str, u: Str)
    requires tr.WF(length) && c in tr.Nodes() && n < |c|
    requires c == tr.root || (|p| < n && tr.Child(p, c[|p|], c))
    requires s in tr.Interpose(p, c, n).inner && u in tr.Interpose(p, c, n).Nodes() && Extends(s, u)
    ensures tr.Interpose(p, c, n).Descends(s, u)
  {
    var t := c[..n];
    InterposeNew(tr, length, p, c, n);
    if s == t {
    } else if u == t {
      assert Extends(s, c) && tr.Descends(s, c);
      if c != tr.root && s != p {
        assert p == c[..|p|] && s == c[..|s|];
        assert Extends(s, p) ==> tr.Descends(s, p);
        assert Extends(p, s) ==> tr.Descends(p, s);
      }
    } else {
      assert tr.Descends(s, u);
    }
  }

  lemma InterposeWF(tr: Trie, length: nat, p: Str, c: Str, n: nat)
    requires tr.WF(length) && c in tr.Nodes() && n < |c|
    requires c == tr.root || (|p| < n && tr.Child(p, c[|p|], c))
    ensures tr.Interpose(p, c, n).WF(length)
  {
    var tr' := tr.Interpose(p, c, n);
    forall s, b | s in tr'.inner && b in tr'.inner[s] ensures tr'.ChildOk(s, b) {
      InterposeChild(tr, length, p, c, n, s, b);
    }
    forall s, u | s in tr'.inner && u in tr'.Nodes() && Extends(s, u) ensures tr'.Descends(s, u) {
      InterposeDescends(tr, length, p, c, n, s, u);
    }
    assert tr'.Rooted();
  }

  lemma HangDescends(tr: Trie, length: nat, s: Str, k: Str, u: Str, v: Str)
    requires tr.WF(length) && s in tr.inner && |k| == length && s <= k && k[|s|] !in tr.inner[s]
    requires u in tr.inner && v in tr.Nodes() + {k} && Extends(u, v)
    ensures tr.Hang(s, k).Descends(u, v)
  {
    if v != k {
      assert tr.Descends(u, v);
    } else if u != s {
      assert u == k[..|u|] && s == k[..|s|];
      assert Extends(s, u) ==> tr.Descends(s, u);
      assert Extends(u, s) && tr.Descends(u, s);
    }
  }

  lemma HangWF(tr: Trie, length: nat, s: Str, k: Str)
    requires tr.WF(length) && s in tr.inner && |k| == length && s <= k && k[|s|] !in tr.inner[s]
    ensures k !in tr.keys
    ensures tr.Hang(s, k).WF(length)
  {
    var tr' := tr.Hang(s, k);
    assert k in tr.Nodes() ==> tr.Descends(s, k);
    forall u, b | u in tr'.inner && b in tr'.inner[u] ensures tr'.ChildOk(u, b) {
      if !(u == s && b == k[|s|]) {
        assert tr.ChildOk(u, b);
      }
    }
    forall u, v | u in tr'.inner && v in tr'.Nodes() && Extends(u, v) ensures tr'.Descends(u, v) {
      HangDescends(tr, length, s, k, u, v);
    }
  }

  lemma UnhangDescends(tr: Trie, length: nat, s: Str, k: Str, u: Str, v: Str)
    requires tr.WF(length) && |s| < |k| && tr.Child(s, k[|s|], k) && k in tr.keys
    requires u in tr.inner && v in tr.Nodes() && v != k && Extends(u, v)
    ensures tr.Unhang(s, k).Descends(u, v)
  {
    assert tr.Descends(u, v);
    if u == s && v[|s|] == k[|s|] {
      PrefixEqual(k, v);
    }
  }

  lemma UnhangWF(tr: Trie, length: nat, s: Str, k: Str)
    requires tr.WF(length) && |s| < |k| && tr.Child(s, k[|s|], k) && k in tr.keys && k != tr.root
    ensures tr.Unhang(s, k).WF(length)
  {
    var tr' := tr.Unhang(s, k);
    assert tr.ChildOk(s, k[|s|]);
    assert tr'.Nodes() == tr.Nodes() - {k};
    forall u, b | u in tr'.inner && b in tr'.inner[u] ensures tr'.ChildOk(u, b) {
      assert tr.ChildOk(u, b);
      if tr.inner[u][b] == k {
        ParentUnique(tr, length, u, b, s, k[|s|], k);
      }
    }
    forall u, v | u in tr'.inner && v in tr'.Nodes() && Extends(u, v) ensures tr'.Descends(u, v) {
      UnhangDescends(tr, length, s, k, u, v);
    }
  }

  lemma ContractChild(tr: Trie, length: nat, p: Str, s: Str, b: Byte, c: Str, u: Str, x: Byte)
    requires tr.WF(length) && tr.Child(s, b, c) && tr.inner[s].Keys == {b}
    requires s == tr.root || (|p| < |s| && tr.Child(p, s[|p|], s))
    requires u in tr.Contract(p, s, c).inner && x in tr.Contract(p, s, c).inner[u]
    ensures tr.Contract(p, s, c).ChildOk(u, x)
  {
    assert tr.ChildOk(s, b);
    assert tr.ChildOk(u, x);
    if tr.inner[u][x] == s {
      assert s != tr.root;
      assert tr.ChildOk(p, s[|p|]);
      ParentUnique(tr, length, u, x, p, s[|p|], s);
    }
  }

  lemma ContractDescends(tr: Trie, length: nat, p: Str, s: Str, b: Byte, c: Str, u: Str, v: Str)
    requires tr.WF(length) && tr.Child(s, b, c) && tr.inner[s].Keys == {b}
    requires s == tr.root || (|p| < |s| && tr.Child(p, s[|p|], s))
    requires u in tr.Contract(p, s, c).inner && v in tr.Contract(p, s, c).Nodes() && Extends(u, v)
    ensures tr.Contract(p, s, c).Descends(u, v)
  {
    assert tr.Descends(u, v);
    if s != tr.root && u == p && v[|p|] == s[|p|] {
      assert s <= v && v != s;
      ContractBelow(tr, length, s, b, c, v);
    }
  }

  lemma ContractBelow(tr: Trie, length: nat, s: Str, b: Byte, c: Str, v: Str)
    requires tr.WF(length) && tr.Child(s, b, c) && tr.inner[s].Keys == {b}
    requires v in tr.Nodes() && s <= v && v != s
    ensures c <= v
  {
    PrefixEqual(s, v);
    assert tr.Descends(s, v);
  }

  lemma ContractWF(tr: Trie, length: nat, p: Str, s: Str, b: Byte, c: Str)
    requires tr.WF(length) && tr.Child(s, b, c) && tr.inner[s].Keys == {b}
    requires s == tr.root || (|p| < |s| && tr.Child(p, s[|p|], s))
    ensures tr.Contract(p, s, c).WF(length)
  {
    var tr' := tr.Contract(p, s, c);
    assert tr.ChildOk(s, b);
    assert tr'.Nodes() == tr.Nodes() - {s};
    forall u, x | u in tr'.inner && x in tr'.inner[u] ensures tr'.ChildOk(u, x) {
      ContractChild(tr, length, p, s, b, c, u, x);
    }
    forall u, v | u in tr'.inner && v in tr'.Nodes() && Extends(u, v) ensures tr'.Descends(u, v) {
      ContractDescends(tr, length, p, s, b, c, u, v);
    }
    if s == tr.root {
      forall u | u in tr'.Nodes() ensures c <= u {
        ContractBelow(tr, length, s, b, c, u);
      }
    }
  }

  // ---- The order of the keys ----

  /** r is the least key at or below node s. */
  ghost predicate IsMin(tr: Trie, s: Str, r: Str) {
    r in tr.keys && s <= r && forall k :: k in tr.keys && s <= k ==> k == r || Less(r, k)
  }

  /** r is the greatest key at or below node s. */
  ghost predicate IsMax(tr: Trie, s: Str, r: Str) {
    r in tr.keys && s <= r && forall k :: k in tr.keys && s <= k ==> k == r || Less(k, r)
  }

  lemma LeafIsMin(tr: Trie, length: nat, s: Str)
    requires tr.WF(length) && s in tr.keys
    ensures IsMin(tr, s, s) && IsMax(tr, s, s)
  {
    forall k | k in tr.keys && s <= k ensures k == s {
      PrefixEqual(s, k);
    }
  }

  /** A key below the inner node s is at or below the child of s it points to. */
  lemma KeyDescends(tr: Trie, length: nat, s: Str, k: Str)
    requires tr.WF(length) && s in tr.inner && k in tr.keys && s <= k
    ensures Extends(s, k) && k[|s|] in tr.inner[s] && tr.inner[s][k[|s|]] <= k
  {
    assert tr.Descends(s, k);
  }

  /** The least key below s is the least one below its first child. */
  lemma MinOfFirst(tr: Trie, length: nat, s: Str, x: Byte, r: Str)
    requires tr.WF(length) && s in tr.inner && x in tr.inner[s]
    requires forall y :: y in tr.inner[s] ==> x <= y
    requires IsMin(tr, tr.inner[s][x], r)
    ensures IsMin(tr, s, r)
  {
    assert tr.ChildOk(s, x);
    KeyDescends(tr, length, s, r);
    forall k | k in tr.keys && s <= k && k != r ensures Less(r, k) {
      KeyDescends(tr, length, s, k);
      if k[|s|] != x {
        LessAt(s, r, k);
      }
    }
  }

  lemma MaxOfLast(tr: Trie, length: nat, s: Str, x: Byte, r: Str)
    requires tr.WF(length) && s in tr.inner && x in tr.inner[s]
    requires forall y :: y in tr.inner[s] ==> y <= x
    requires IsMax(tr, tr.inner[s][x], r)
    ensures IsMax(tr, s, r)
  {
    assert tr.ChildOk(s, x);
    KeyDescends(tr, length, s, r);
    forall k | k in tr.keys && s <= k && k != r ensures Less(k, r) {
      KeyDescends(tr, length, s, k);
      if k[|s|] != x {
        LessAt(s, k, r);
      }
    }
  }

  /** No key above k lies at or below the node s. */
  ghost predicate NoneAbove(tr: Trie, s: Str, k: Str) {
    forall j :: j in tr.keys && s <= j ==> !Less(k, j)
  }

  /** No key below k lies at or below the node s. */
  ghost predicate NoneBelow(tr: Trie, s: Str, k: Str) {
    forall j :: j in tr.keys && s <= j ==> !Less(j, k)
  }

  /** No key above k leaves s by k's own byte. */
  ghost predicate NoneAboveOnBranch(tr: Trie, s: Str, k: Str)
    requires Extends(s, k)
  {
    forall j :: j in tr.keys && Extends(s, j) && j[|s|] == k[|s|] ==> !Less(k, j)
  }

  ghost predicate NoneBelowOnBranch(tr: Trie, s: Str, k: Str)
    requires Extends(s, k)
  {
    forall j :: j in tr.keys && Extends(s, j) && j[|s|] == k[|s|] ==> !Less(j, k)
  }

  /** The branch of p towards k holds the keys of p's child s. */
  lemma BranchIsChild(tr: Trie, length: nat, p: Str, s: Str, k: Str)
    requires tr.WF(length) && |p| < |s| && tr.Child(p, s[|p|], s) && s <= k && |k| == length
    ensures Extends(p, k)
    ensures NoneAbove(tr, s, k) ==> NoneAboveOnBranch(tr, p, k)
    ensures NoneBelow(tr, s, k) ==> NoneBelowOnBranch(tr, p, k)
  {
    assert tr.ChildOk(p, s[|p|]);
    forall j | j in tr.keys && Extends(p, j) && j[|p|] == k[|p|] ensures s <= j {
      assert tr.Descends(p, j);
    }
  }

  /** Nothing above k below the root means nothing above k at all. */
  lemma RootIsAll(tr: Trie, length: nat, k: Str)
    requires tr.WF(length)
    ensures NoneAbove(tr, tr.root, k) ==> forall j :: j in tr.keys ==> !Less(k, j)
    ensures NoneBelow(tr, tr.root, k) ==> forall j :: j in tr.keys ==> !Less(j, k)
  {
  }

  /** r is the least of the keys above k. */
  ghost predicate IsNext(keys: set<Str>, k: Str, r: Str) {
    r in keys && Less(k, r) && forall j :: j in keys && Less(k, j) ==> j == r || Less(r, j)
  }

  /** r is the greatest of the keys below k. */
  ghost predicate IsPrev(keys: set<Str>, k: Str, r: Str) {
    r in keys && Less(r, k) && forall j :: j in keys && Less(j, k) ==> j == r || Less(j, r)
  }

  /** A prefix of k that is no longer than what k shares with j is a prefix of j. */
  lemma PrefixOfCommon(s: Str, k: Str, j: Str, n: nat)
    ensures s <= k && |s| <= n <= |k| && n <= |j| && k[..n] == j[..n] ==> s <= j
  {
  }

  /** A key that leaves s below k leaves it elsewhere than s. */
  lemma LessOutside(s: Str, k: Str, j: Str, r: Str)
    requires s <= k && s <= r && |k| == |j| == |r| && !(s <= j)
    requires Less(k, j)
    ensures Less(r, j)
  {
    var n := Lcp(k, j);
    PrefixOfCommon(s, k, j, n);
    assert r[..n] == s[..n] == k[..n] && r[n] == s[n] == k[n];
    LcpUnique(r, j, n);
  }

  lemma GreaterOutside(s: Str, k: Str, j: Str, r: Str)
    requires s <= k && s <= r && |k| == |j| == |r| && !(s <= j)
    requires Less(j, k)
    ensures Less(j, r)
  {
    var n := Lcp(j, k);
    PrefixOfCommon(s, k, j, n);
    assert r[..n] == s[..n] == k[..n] && r[n] == s[n] == k[n];
    LcpUnique(j, r, n);
  }

  /** The step of successor: the least key of the first child past k's byte is the least key above k,
      when k passes s and no key on its own branch below s is above it. */
  lemma NextInNode(tr: Trie, length: nat, s: Str, k: Str, x: Byte, r: Str)
    requires tr.WF(length) && s in tr.inner && |k| == length && Extends(s, k)
    requires NoneAboveOnBranch(tr, s, k)
    requires x in tr.inner[s] && k[|s|] < x && (forall y :: y in tr.inner[s] && k[|s|] < y ==> x <= y)
    requires IsMin(tr, tr.inner[s][x], r)
    ensures IsNext(tr.keys, k, r)
  {
    assert tr.ChildOk(s, x);
    KeyDescends(tr, length, s, r);
    LessAt(s, k, r);
    forall j | j in tr.keys && Less(k, j) && j != r ensures Less(r, j) {
      if s <= j {
        KeyDescends(tr, length, s, j);
        if j[|s|] != k[|s|] { LessAt(s, k, j); }
        if j[|s|] != x { LessAt(s, r, j); }
      } else {
        LessOutside(s, k, j, r);
      }
    }
  }

  /** Nothing above k below s: neither on k's branch nor past its byte. */
  lemma NoneAboveNode(tr: Trie, length: nat, s: Str, k: Str)
    requires tr.WF(length) && s in tr.inner && |k| == length && Extends(s, k)
    requires NoneAboveOnBranch(tr, s, k)
    requires forall y :: y in tr.inner[s] ==> y <= k[|s|]
    ensures NoneAbove(tr, s, k)
  {
    forall j | j in tr.keys && s <= j ensures !Less(k, j) {
      KeyDescends(tr, length, s, j);
      if j[|s|] != k[|s|] { LessAt(s, k, j); }
    }
  }

  lemma PrevInNode(tr: Trie, length: nat, s: Str, k: Str, x: Byte, r: Str)
    requires tr.WF(length) && s in tr.inner && |k| == length && Extends(s, k)
    requires NoneBelowOnBranch(tr, s, k)
    requires x in tr.inner[s] && x < k[|s|] && (forall y :: y in tr.inner[s] && y < k[|s|] ==> y <= x)
    requires IsMax(tr, tr.inner[s][x], r)
    ensures IsPrev(tr.keys, k, r)
  {
    assert tr.ChildOk(s, x);
    KeyDescends(tr, length, s, r);
    LessAt(s, r, k);
    forall j | j in tr.keys && Less(j, k) && j != r ensures Less(j, r) {
      if s <= j {
        KeyDescends(tr, length, s, j);
        if j[|s|] != k[|s|] { LessAt(s, j, k); }
        if j[|s|] != x { LessAt(s, j, r); }
      } else {
        GreaterOutside(s, k, j, r);
      }
    }
  }

  lemma NoneBelowNode(tr: Trie, length: nat, s: Str, k: Str)
    requires tr.WF(length) && s in tr.inner && |k| == length && Extends(s, k)
    requires NoneBelowOnBranch(tr, s, k)
    requires forall y :: y in tr.inner[s] ==> k[|s|] <= y
    ensures NoneBelow(tr, s, k)
  {
    forall j | j in tr.keys && s <= j ensures !Less(j, k) {
      KeyDescends(tr, length, s, j);
      if j[|s|] != k[|s|] { LessAt(s, j, k); }
    }
  }
}
