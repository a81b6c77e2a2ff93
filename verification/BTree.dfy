/** The B-tree: nodes linked by child and parent pointers, and the steps that keep it one. */
module BTrees {
  import opened BNodes
  import opened Ranges

  /** btree_iterator */
  datatype Iter = Iter(node: BNode?, position: int)

  /** Where the merges of an erasure end: at node, which is short of lost values, after so many of them. */
  datatype Halt = Halt(node: BNode, position: int, lost: int, merges: nat)

  class BTree {
    /** kNodeValues */
    const nodeValues: nat
    var root: BNode?

    ghost var nodes: set<BNode>
    /** The node that holds each key. */
    ghost var home: map<Key, BNode>
    /** What the tree means. */
    ghost var content: map<Key, Data>

    ghost var Repr: set<object>

    /** The tree owns its nodes, which share no arrays. */
    ghost predicate Owned()
      reads `nodes, `Repr
    {
      && this in Repr
      && (forall n :: n in nodes ==> n in Repr && n.values in Repr && n.children in Repr)
      && (forall m, n :: m in nodes && n in nodes && m != n ==> m.values != n.values && m.children != n.children)
    }

    ghost predicate NodeOk(n: BNode)
      reads this, Repr
      requires Owned()
    {
      && n in nodes && n.Rep() && Sorted(n.vals) && Within(n.vals, n.lo, n.hi) && (n.leaf <==> n.height == 0)
      && (n.maxCount == nodeValues || (n == root && n.leaf && 1 <= n.maxCount <= nodeValues))
    }

    /** Child j of n knows its parent and position, is one level below, and lies between its neighbours in n. */
    ghost predicate KidOk(n: BNode, j: nat)
      reads this, Repr
      requires Owned()
    {
      && n in nodes && j < |n.kids| && j <= |n.vals| && n.kids[j] in nodes
      && n.kids[j].parent == n && n.kids[j].position == j && n.kids[j].height + 1 == n.height
      && n.kids[j].lo == LoOf(n.vals, n.lo, j) && n.kids[j].hi == HiOf(n.vals, n.hi, j)
    }

    ghost predicate KidsOk(n: BNode)
      reads this, Repr
      requires Owned()
    {
      n in nodes && forall j :: 0 <= j < |n.kids| ==> KidOk(n, j)
    }

    /** n is a child of its parent. */
    ghost predicate UpOk(n: BNode)
      reads this, Repr
      requires Owned()
    {
      && n in nodes
      && (n != root ==> n.parent != null && n.parent in nodes && n.position < |n.parent.kids| && n.parent.kids[n.position] == n)
    }

    /** The values of n are those of the content, and n is their home. */
    ghost predicate Stored(n: BNode)
      reads this, Repr
      requires Owned()
    {
      && n in nodes
      && forall i :: 0 <= i < |n.vals| ==>
        n.vals[i].key in home && home[n.vals[i].key] == n
        && n.vals[i].key in content && content[n.vals[i].key] == n.vals[i].data
    }

    /** A leaf holds every key between its bounds. */
    ghost predicate Cover(n: BNode)
      reads this, Repr
      requires Owned()
    {
      n in nodes && (n.leaf ==> forall k :: k in content && Above(n.lo, k) && Under(k, n.hi) ==> k in KeySet(n.vals))
    }

    ghost predicate RootOk()
      reads this, Repr
      requires Owned()
    {
      && home.Keys == content.Keys && nodeValues >= 3
      && (root == null ==> nodes == {} && content == map[])
      && (root != null ==>
            && root in nodes && root.lo == Open && root.hi == Open
            && root.parent != null && root.parent in nodes && root.parent.leaf && root.parent.lo == Open
            && (!root.leaf ==> root.rightmost != null && root.rightmost in nodes && root.rightmost.leaf && root.rightmost.hi == Open))
    }

    ghost predicate Linked()
      reads this, Repr
    {
      && Owned() && RootOk()
      && (forall n :: n in nodes ==> NodeOk(n))
      && (forall n :: n in nodes ==> KidsOk(n))
      && (forall n :: n in nodes ==> UpOk(n))
      && (forall n :: n in nodes ==> Stored(n))
      && (forall n :: n in nodes ==> Cover(n))
    }

    /** Every node but those of holes holds a value. */
    ghost predicate Filled(holes: set<BNode>)
      reads this, Repr
      requires Owned()
    {
      forall n :: n in nodes && n !in holes ==> |n.vals| >= 1
    }

    // ---- Moving values between siblings ----

    /** Node n keeps its values, its children and its place in the order. */
    twostate predicate Same(n: BNode)
      reads n, n.values, n.children
    {
      && n.vals == old(n.vals) && n.kids == old(n.kids) && n.lo == old(n.lo) && n.hi == old(n.hi) && n.height == old(n.height)
      && (old(n.Rep()) ==> n.Rep())
    }

    twostate predicate SameLink(n: BNode)
      reads n
    {
      n.parent == old(n.parent) && n.position == old(n.position)
    }

    /** l and r are the children i and i + 1 of p. */
    ghost predicate Adjacent(p: BNode, l: BNode, r: BNode)
      reads p, l, r
    {
      && p != l && p != r && l != r && l.parent == p && r.parent == p && r.position == l.position + 1
      && l.position < |p.vals| && r.position < |p.kids| && p.kids[l.position] == l && p.kids[r.position] == r
    }

    ghost function HomeAfter(was: map<Key, BNode>, p: BNode, l: BNode, r: BNode, d: Key): map<Key, BNode>
      reads l, r
    {
      map k | k in was :: if k in KeySet(l.vals) then l else if k in KeySet(r.vals) then r else if k == d then p else was[k]
    }

    /** The values of l and r around the delimiter at position i of p, and their children, have been divided anew. */
    twostate predicate Rebalanced(new p: BNode, new l: BNode, new r: BNode, new i: nat)
      reads *
    {
      RebalancedAt(p, l, r, i) && OthersSame({p, l, r}) && LinksSame(l.kids + r.kids)
    }

    /** Every node outside xs keeps its values, its children and its place. */
    twostate predicate OthersSame(new xs: set<BNode>)
      reads *
    {
      forall n :: n in old(nodes) && n !in xs ==> Same(n)
    }

    /** Every node outside cs keeps its parent and position. */
    twostate predicate LinksSame(new cs: seq<BNode>)
      reads *
    {
      forall n :: n in old(nodes) && n !in cs ==> SameLink(n)
    }

    twostate predicate RebalancedAt(new p: BNode, new l: BNode, new r: BNode, new i: nat)
      reads *
    {
      && p in old(nodes) && l in old(nodes) && r in old(nodes) && p != l && p != r && l != r
      && nodes == old(nodes) && content == old(content) && root == old(root) && Repr == old(Repr)
      && p.kids == old(p.kids) && p.lo == old(p.lo) && p.hi == old(p.hi) && p.height == old(p.height) && SameLink(p)
      && i < |p.vals| && i < |old(p.vals)| && p.vals == old(p.vals)[i := p.vals[i]]
      && l.lo == old(l.lo) && r.hi == old(r.hi) && l.height == old(l.height) && r.height == old(r.height) && SameLink(l)
        && SameLink(r)
      && l.hi == At(p.vals[i].key) && r.lo == At(p.vals[i].key)
      && l.vals + [p.vals[i]] + r.vals == old(l.vals) + [old(p.vals)[i]] + old(r.vals)
      && l.kids + r.kids == old(l.kids) + old(r.kids)
      && p.Rep() && l.Rep() && r.Rep() && l.Placed() && r.Placed()
      && home == HomeAfter(old(home), p, l, r, p.vals[i].key)
      && (root != null ==> root.rightmost == old(root.rightmost))
    }

    /** The values of l, the delimiter and the values of r are a sorted run between the bounds around them. */
    ghost predicate Run(p: BNode, l: BNode, r: BNode, i: nat)
      reads p, l, r
    {
      && i < |p.vals| && Sorted(l.vals + [p.vals[i]] + r.vals) && Within(l.vals + [p.vals[i]] + r.vals, l.lo, r.hi)
      && l.hi == At(p.vals[i].key) == r.lo && l.lo == LoOf(p.vals, p.lo, i) && r.hi == HiOf(p.vals, p.hi, i + 1)
    }

    lemma RunSorted(p: BNode, l: BNode, r: BNode)
      requires Owned() && Adjacent(p, l, r) && NodeOk(p) && NodeOk(l) && NodeOk(r) && KidsOk(p)
      ensures Run(p, l, r, l.position)
    {
      hide BNode.Rep;
      var i := l.position;
      assert KidOk(p, i) && KidOk(p, i + 1);
      assert Within([p.vals[i]], l.lo, r.hi);
      JoinSorted(l.vals, p.vals[i], r.vals, l.lo, r.hi);
    }

    twostate lemma RebalancedSides(new p: BNode, new l: BNode, new r: BNode, new i: nat)
      requires old(Owned()) && Owned() && Rebalanced(p, l, r, i)
      requires old(p in nodes && l in nodes && r in nodes && Run(p, l, r, i) && NodeOk(l) && NodeOk(r)) && l != root && r != root
      ensures NodeOk(l) && NodeOk(r) && Within([p.vals[i]], l.lo, r.hi)
    {
      hide BNode.Rep, Sorted, Within;
      PartSorted(l.vals, p.vals[i], r.vals, l.lo, r.hi);
    }

    twostate lemma RebalancedParent(new p: BNode, new l: BNode, new r: BNode, new i: nat)
      requires old(Owned()) && Owned() && Rebalanced(p, l, r, i)
      requires old(p in nodes && l in nodes && r in nodes && Run(p, l, r, i) && NodeOk(p) && NodeOk(l) && NodeOk(r)) && l != root
      requires r != root
      ensures NodeOk(p)
    {
      hide BNode.Rep, Sorted, Within;
      RebalancedSides(p, l, r, i);
      SortedUpdate(old(p.vals), i, p.vals[i], p.lo, p.hi);
    }

    /** The children of p keep their bounds, but for the bound between l and r. */
    twostate lemma RebalancedKidsP(new p: BNode, new l: BNode, new r: BNode, new i: nat)
      requires old(Owned()) && Owned() && Rebalanced(p, l, r, i)
      requires old(p in nodes && l in nodes && r in nodes && Run(p, l, r, i) && KidsOk(p) && i + 1 < |p.kids|
        && p.kids[i] == l && p.kids[i + 1] == r)
      requires forall c :: c in p.kids ==> c !in l.kids + r.kids
      ensures KidsOk(p)
    {
      hide BNode.Rep, Sorted, Within;
      forall j | 0 <= j < |p.kids| ensures KidOk(p, j) {
        assert old(KidOk(p, j)) && old(KidOk(p, i)) && old(KidOk(p, i + 1));
        if j != i && j != i + 1 {
          assert Same(p.kids[j]) && SameLink(p.kids[j]);
        }
      }
    }

    /** The child j of the concatenation of l's and r's, before: bounds and height. */
    ghost predicate RunKid(p: BNode, l: BNode, r: BNode, i: nat, c: BNode, j: nat)
      reads p, l, r, c
    {
      && i < |p.vals| && j <= |l.vals| + 1 + |r.vals| && c.height + 1 == l.height
      && c.lo == LoOf(l.vals + [p.vals[i]] + r.vals, l.lo, j) && c.hi == HiOf(l.vals + [p.vals[i]] + r.vals, r.hi, j)
    }

    lemma RunKidAt(p: BNode, l: BNode, r: BNode, i: nat, j: nat)
      requires Owned() && p in nodes && KidsOk(l) && KidsOk(r) && Run(p, l, r, i) && l.height == r.height
      requires l.Rep() && r.Rep() && !l.leaf && !r.leaf && j < |l.kids + r.kids|
      ensures (l.kids + r.kids)[j] in nodes && RunKid(p, l, r, i, (l.kids + r.kids)[j], j)
    {
      hide Sorted, Within;
      if j < |l.kids| {
        assert KidOk(l, j);
        BoundsLeft(l.vals, p.vals[i], r.vals, l.lo, r.hi, j);
      } else {
        assert KidOk(r, j - |l.kids|);
        BoundsRight(l.vals, p.vals[i], r.vals, l.lo, r.hi, j - |l.kids|);
      }
    }

    ghost predicate RunKids(p: BNode, l: BNode, r: BNode, i: nat)
      reads `nodes, p, l, r, l.kids, r.kids
    {
      forall j :: 0 <= j < |l.kids + r.kids| ==> (l.kids + r.kids)[j] in nodes && RunKid(p, l, r, i, (l.kids + r.kids)[j], j)
    }

    twostate lemma RebalancedKid(new p: BNode, new l: BNode, new r: BNode, new i: nat, new j: nat)
      requires old(Owned()) && Owned() && Rebalanced(p, l, r, i)
      requires old(p in nodes && l in nodes && r in nodes && RunKids(p, l, r, i)) && j < |l.kids + r.kids|
      requires l !in l.kids + r.kids && r !in l.kids + r.kids && p !in l.kids + r.kids
      ensures (l.kids + r.kids)[j] in nodes && RunKid(p, l, r, i, (l.kids + r.kids)[j], j)
    {
      hide BNode.Rep, Sorted, Within, LoOf, HiOf, HomeAfter;
      assert l.kids + r.kids == old(l.kids + r.kids);
      assert Same((l.kids + r.kids)[j]);
    }

    twostate lemma RebalancedKidsL(new p: BNode, new l: BNode, new r: BNode, new i: nat)
      requires old(Owned()) && Owned() && Rebalanced(p, l, r, i)
      requires old(p in nodes && l in nodes && r in nodes && RunKids(p, l, r, i)) && !l.leaf
      requires l !in l.kids + r.kids && r !in l.kids + r.kids && p !in l.kids + r.kids
      ensures KidsOk(l)
    {
      hide Sorted, Within, HomeAfter;
      forall j | 0 <= j < |l.kids| ensures KidOk(l, j) {
        RebalancedKid(p, l, r, i, j);
        assert (l.kids + r.kids)[j] == l.kids[j];
        BoundsLeft(l.vals, p.vals[i], r.vals, l.lo, r.hi, j);
      }
    }

    /** In terms of r alone. */
    lemma RunKidRight(p: BNode, l: BNode, r: BNode, i: nat, j: nat)
      requires i < |p.vals| && |l.kids| == |l.vals| + 1 && j < |r.kids| && j <= |r.vals| && r.lo == At(p.vals[i].key)
      requires RunKid(p, l, r, i, (l.kids + r.kids)[|l.kids| + j], |l.kids| + j) && l.height == r.height
      ensures r.kids[j].lo == LoOf(r.vals, r.lo, j) && r.kids[j].hi == HiOf(r.vals, r.hi, j) && r.kids[j].height + 1 == r.height
    {
      assert (l.kids + r.kids)[|l.kids| + j] == r.kids[j];
      BoundsRight(l.vals, p.vals[i], r.vals, l.lo, r.hi, j);
    }

    twostate lemma RebalancedKidsR(new p: BNode, new l: BNode, new r: BNode, new i: nat)
      requires old(Owned()) && Owned() && Rebalanced(p, l, r, i)
      requires old(p in nodes && l in nodes && r in nodes && RunKids(p, l, r, i)) && !l.leaf && !r.leaf && l.height == r.height
      requires l !in l.kids + r.kids && r !in l.kids + r.kids && p !in l.kids + r.kids
      ensures KidsOk(r)
    {
      hide Sorted, Within, HomeAfter, LoOf, HiOf, RunKid, OthersSame, LinksSame, RunKids;
      forall j | 0 <= j < |r.kids| ensures KidOk(r, j) {
        RebalancedKid(p, l, r, i, |l.kids| + j);
        RunKidRight(p, l, r, i, j);
      }
    }

    /** The other nodes. */
    twostate lemma RebalancedElsewhere(new p: BNode, new l: BNode, new r: BNode, new i: nat, new n: BNode)
      requires old(Owned()) && Owned() && Rebalanced(p, l, r, i)
      requires n in old(nodes) && n != p && n != l && n != r && old(NodeOk(n) && KidsOk(n))
      requires forall c :: c in n.kids ==> c != l && c != r && c !in l.kids + r.kids
      ensures NodeOk(n) && KidsOk(n)
    {
      hide BNode.Rep, Sorted, Within, LoOf, HiOf, HomeAfter;
      assert Same(n);
      forall j | 0 <= j < |n.kids| ensures KidOk(n, j) {
        assert old(KidOk(n, j));
        assert n.kids[j] in n.kids && SameLink(n.kids[j]);
        assert n.kids[j] != p ==> Same(n.kids[j]);
      }
    }

    twostate lemma RebalancedUp(new p: BNode, new l: BNode, new r: BNode, new i: nat, new n: BNode)
      requires old(Owned()) && Owned() && Rebalanced(p, l, r, i) && n in old(nodes) && old(UpOk(n))
      requires n !in l.kids + r.kids ==> old(n.parent != l && n.parent != r)
      ensures UpOk(n)
    {
      hide BNode.Rep, Sorted, Within, LoOf, HiOf, HomeAfter;
      if n in l.kids {
        var j :| 0 <= j < |l.kids| && l.kids[j] == n;
      } else if n in r.kids {
        var j :| 0 <= j < |r.kids| && r.kids[j] == n;
      } else {
        assert SameLink(n);
        if n != root && n.parent != p { assert Same(n.parent); }
      }
    }

    /** The run holds content, and its keys are at home in p, l or r. */
    ghost predicate RunStored(p: BNode, l: BNode, r: BNode, v: seq<Entry>)
      reads this
    {
      AtHome(home, content, p, l, r, v)
    }

    static ghost predicate AtHome(home: map<Key, BNode>, content: map<Key, Data>, p: BNode, l: BNode, r: BNode, v: seq<Entry>) {
      forall j :: 0 <= j < |v| ==>
        && v[j].key in home && (home[v[j].key] == p || home[v[j].key] == l || home[v[j].key] == r)
        && v[j].key in content && content[v[j].key] == v[j].data
    }

    lemma RunIsStored(p: BNode, l: BNode, r: BNode, i: nat)
      requires Owned() && Stored(p) && Stored(l) && Stored(r) && i < |p.vals|
      ensures RunStored(p, l, r, l.vals + [p.vals[i]] + r.vals)
    {
    }

    static lemma RunHome(home: map<Key, BNode>, content: map<Key, Data>, p: BNode, l: BNode, r: BNode, v: seq<Entry>, k: Key)
      requires AtHome(home, content, p, l, r, v) && k in KeySet(v)
      ensures k in home && (home[k] == p || home[k] == l || home[k] == r)
    {
    }

    twostate lemma RebalancedStoredElsewhere(new p: BNode, new l: BNode, new r: BNode, new i: nat, new n: BNode)
      requires old(Owned()) && Owned() && Rebalanced(p, l, r, i) && n in old(nodes) && n != p && n != l && n != r
      requires old(p in nodes && l in nodes && r in nodes && Stored(n))
      requires forall k :: k in KeySet(l.vals + [p.vals[i]] + r.vals) ==> k in old(home) && old(home)[k] != n
      ensures Stored(n)
    {
      hide BNode.Rep, Sorted, Within, LoOf, HiOf, KeySet;
      assert Same(n);
      KeySetJoin(l.vals, p.vals[i], r.vals);
      forall j | 0 <= j < |n.vals|
        ensures n.vals[j].key in home && home[n.vals[j].key] == n && n.vals[j].key in content
          && content[n.vals[j].key] == n.vals[j].data
      {
      }
    }

    twostate lemma RebalancedStoredParent(new p: BNode, new l: BNode, new r: BNode, new i: nat)
      requires old(Owned()) && Owned() && Rebalanced(p, l, r, i)
      requires old(p in nodes && l in nodes && r in nodes && Stored(p) && RunStored(p, l, r, l.vals + [p.vals[i]] + r.vals))
      requires Within(l.vals, l.lo, At(p.vals[i].key)) && Within(r.vals, At(p.vals[i].key), r.hi)
      requires l.lo == LoOf(p.vals, p.lo, i) && r.hi == HiOf(p.vals, p.hi, i + 1) && Sorted(p.vals)
      ensures Stored(p)
    {
      hide BNode.Rep;
      var d := p.vals[i];
      assert (l.vals + [d] + r.vals)[|l.vals|] == d;
      forall j | 0 <= j < |p.vals| ensures p.vals[j].key !in KeySet(l.vals) && p.vals[j].key !in KeySet(r.vals) {
        ParentKeyApart(p, l, r, i, j);
      }
    }

    lemma ParentKeyApart(p: BNode, l: BNode, r: BNode, i: nat, j: nat)
      requires i < |p.vals| && j < |p.vals| && Sorted(p.vals)
      requires Within(l.vals, l.lo, At(p.vals[i].key)) && Within(r.vals, At(p.vals[i].key), r.hi)
      requires l.lo == LoOf(p.vals, p.lo, i) && r.hi == HiOf(p.vals, p.hi, i + 1)
      ensures p.vals[j].key !in KeySet(l.vals) && p.vals[j].key !in KeySet(r.vals)
    {
      var k := p.vals[j].key;
      if k in KeySet(l.vals) { KeysWithin(l.vals, l.lo, At(p.vals[i].key), k); }
      if k in KeySet(r.vals) { KeysWithin(r.vals, At(p.vals[i].key), r.hi, k); }
    }

    twostate lemma RebalancedStoredSides(new p: BNode, new l: BNode, new r: BNode, new i: nat)
      requires old(Owned()) && Owned() && Rebalanced(p, l, r, i)
      requires old(p in nodes && l in nodes && r in nodes && RunStored(p, l, r, l.vals + [p.vals[i]] + r.vals))
        && i < |old(p.vals)|
      requires Within(l.vals, l.lo, At(p.vals[i].key)) && Within(r.vals, At(p.vals[i].key), r.hi)
      ensures Stored(l) && Stored(r)
    {
      hide BNode.Rep, Sorted;
      var d := p.vals[i];
      var v := l.vals + [d] + r.vals;
      forall j | 0 <= j < |l.vals| ensures v[j] == l.vals[j] && l.vals[j].key in KeySet(l.vals) {}
      forall j | 0 <= j < |r.vals| ensures v[|l.vals| + 1 + j] == r.vals[j] && r.vals[j].key in KeySet(r.vals)
        && r.vals[j].key !in KeySet(l.vals) {
        if r.vals[j].key in KeySet(l.vals) { KeysWithin(l.vals, l.lo, At(d.key), r.vals[j].key); }
      }
    }

    twostate lemma RebalancedCoverSides(new p: BNode, new l: BNode, new r: BNode, new i: nat)
      requires old(Owned()) && Owned() && Rebalanced(p, l, r, i)
      requires old(p in nodes && l in nodes && r in nodes && i < |p.vals| && Cover(l) && Cover(r)
        && l.hi == At(p.vals[i].key) == r.lo)
      requires l.leaf == r.leaf && Within(l.vals, l.lo, At(p.vals[i].key)) && Within(r.vals, At(p.vals[i].key), r.hi)
      requires Above(l.lo, p.vals[i].key) && Under(p.vals[i].key, r.hi)
      ensures Cover(l) && Cover(r)
    {
      hide BNode.Rep, Sorted, KeySet, Within, HomeAfter;
      if l.leaf {
        var d := p.vals[i];
        KeySetJoin(old(l.vals), old(p.vals)[i], old(r.vals));
        KeySetJoin(l.vals, d, r.vals);
        forall k | k in content && Above(l.lo, k) && Under(k, r.hi) ensures k in KeySet(l.vals) + {d.key} + KeySet(r.vals) {
        }
        forall k | k in KeySet(l.vals) ensures k < d.key { KeysWithin(l.vals, l.lo, At(d.key), k); }
        forall k | k in KeySet(r.vals) ensures d.key < k { KeysWithin(r.vals, At(d.key), r.hi, k); }
      }
    }

    twostate lemma RebalancedCover(new p: BNode, new l: BNode, new r: BNode, new i: nat, new n: BNode)
      requires old(Owned()) && Owned() && Rebalanced(p, l, r, i) && n in old(nodes) && old(Cover(n))
      requires n != l && n != r && (n == p ==> !n.leaf)
      ensures Cover(n)
    {
      hide BNode.Rep, Sorted, Within, LoOf, HiOf, HomeAfter, KeySet;
      if n != p { assert Same(n); }
    }

    /** No child of l or r is one of the three, or a child of another node. */
    ghost predicate Family(p: BNode, l: BNode, r: BNode)
      reads `nodes, `root, nodes, p, l, r
    {
      && l !in l.kids + r.kids && r !in l.kids + r.kids && p !in l.kids + r.kids && (root != null ==> root !in l.kids + r.kids)
      && (forall c :: c in p.kids ==> c !in l.kids + r.kids)
      && (forall n, c :: n in nodes && n != p && n != l && n != r && c in n.kids ==> c != l && c != r && c !in l.kids + r.kids)
      && (forall n :: n in nodes && n !in l.kids + r.kids ==> n == root || (n.parent != l && n.parent != r))
    }

    /** Everything the moves between l and r rely on beforehand, besides a linked tree. */
    ghost predicate Balanceable(p: BNode, l: BNode, r: BNode, i: nat)
      reads this, p, l, r, nodes, l.kids, r.kids
    {
      && p in nodes && l in nodes && r in nodes && Adjacent(p, l, r) && i == l.position
      && Run(p, l, r, i) && RunKids(p, l, r, i) && RunStored(p, l, r, l.vals + [p.vals[i]] + r.vals) && Family(p, l, r)
      && l.height == r.height && l != root && r != root && !p.leaf && l.leaf == r.leaf
    }

    twostate lemma RebalancedRoot(new p: BNode, new l: BNode, new r: BNode, new i: nat)
      requires old(p in nodes && l in nodes && r in nodes && Linked() && Balanceable(p, l, r, i)) && Rebalanced(p, l, r, i)
      ensures Owned() && RootOk()
    {
      hide BNode.Rep, Sorted, Within, KeySet, NodeOk, KidsOk, UpOk, Stored, Cover, RunKids, RunStored;
      assert home.Keys == old(home).Keys;
      if root != null {
        assert SameLink(root);
      }
    }

    twostate lemma RebalancedRun(new p: BNode, new l: BNode, new r: BNode, new i: nat)
      requires old(p in nodes && l in nodes && r in nodes && Linked() && Balanceable(p, l, r, i))
        && Rebalanced(p, l, r, i) && Owned()
      ensures Sorted(p.vals) && Within([p.vals[i]], l.lo, r.hi)
      ensures Within(l.vals, l.lo, At(p.vals[i].key)) && Within(r.vals, At(p.vals[i].key), r.hi)
      ensures NodeOk(p) && NodeOk(l) && NodeOk(r)
      ensures l.lo == LoOf(p.vals, p.lo, i) && r.hi == HiOf(p.vals, p.hi, i + 1)
    {
      hide BNode.Rep, Sorted, Within, HomeAfter, KeySet, KidsOk, UpOk, Stored, Cover, RunKids, RunStored, Family;
      RebalancedSides(p, l, r, i);
      RebalancedParent(p, l, r, i);
    }

    twostate lemma RebalancedNodes(new p: BNode, new l: BNode, new r: BNode, new i: nat)
      requires old(p in nodes && l in nodes && r in nodes && Linked() && Balanceable(p, l, r, i))
        && Rebalanced(p, l, r, i) && Owned()
      requires NodeOk(p) && NodeOk(l) && NodeOk(r)
      ensures forall n :: n in nodes ==> NodeOk(n) && KidsOk(n)
    {
      hide BNode.Rep, Sorted, Within, LoOf, HiOf, HomeAfter, KeySet, NodeOk, KidsOk, UpOk, Stored, Cover, RunKids, RunStored, Run;
      RebalancedKidsP(p, l, r, i);
      if !l.leaf {
        RebalancedKidsL(p, l, r, i);
        RebalancedKidsR(p, l, r, i);
      } else {
        LeafKids(l);
        LeafKids(r);
      }
      forall n | n in nodes ensures NodeOk(n) && KidsOk(n) {
        if n != p && n != l && n != r {
          RebalancedElsewhere(p, l, r, i, n);
        }
      }
    }

    lemma LeafKids(n: BNode)
      requires Owned() && NodeOk(n) && n.leaf
      ensures KidsOk(n)
    {
    }

    twostate lemma RebalancedLinks(new p: BNode, new l: BNode, new r: BNode, new i: nat)
      requires old(p in nodes && l in nodes && r in nodes && Linked() && Balanceable(p, l, r, i))
        && Rebalanced(p, l, r, i) && Owned()
      ensures forall n :: n in nodes ==> UpOk(n)
    {
      hide BNode.Rep, Sorted, Within, LoOf, HiOf, HomeAfter, KeySet, NodeOk, KidsOk, UpOk, Stored, Cover, RunKids, RunStored, Run;
      forall n | n in nodes ensures UpOk(n) {
        assert old(UpOk(n));
        if n == root && n !in l.kids + r.kids {
          RootUp(n);
        } else {
          RebalancedUp(p, l, r, i, n);
        }
      }
    }

    lemma RootUp(n: BNode)
      requires Owned() && n in nodes && n == root
      ensures UpOk(n)
    {
    }

    twostate lemma RebalancedValues(new p: BNode, new l: BNode, new r: BNode, new i: nat)
      requires old(p in nodes && l in nodes && r in nodes && Linked() && Balanceable(p, l, r, i))
        && Rebalanced(p, l, r, i) && Owned()
      requires Sorted(p.vals) && l.lo == LoOf(p.vals, p.lo, i) && r.hi == HiOf(p.vals, p.hi, i + 1)
      requires Within(l.vals, l.lo, At(p.vals[i].key)) && Within(r.vals, At(p.vals[i].key), r.hi)
      ensures forall n :: n in nodes ==> Stored(n)
    {
      hide BNode.Rep, Sorted, Within, LoOf, HiOf, HomeAfter, KeySet, NodeOk, KidsOk, UpOk, Stored, Cover, RunKids,
        RunStored, Run, Family;
      RebalancedStoredParent(p, l, r, i);
      RebalancedStoredSides(p, l, r, i);
      forall n | n in nodes && n != p && n != l && n != r ensures Stored(n) {
        assert old(Stored(n));
        RebalancedStoredOther(p, l, r, i, n);
      }
    }

    twostate lemma RebalancedStoredOther(new p: BNode, new l: BNode, new r: BNode, new i: nat, new n: BNode)
      requires old(Owned()) && Owned() && Rebalanced(p, l, r, i) && n in old(nodes) && n != p && n != l && n != r
      requires old(p in nodes && l in nodes && r in nodes && Stored(n) && RunStored(p, l, r, l.vals + [p.vals[i]] + r.vals))
      ensures Stored(n)
    {
      hide BNode.Rep, Sorted, Within, LoOf, HiOf, HomeAfter, KeySet, AtHome;
      var v := l.vals + [p.vals[i]] + r.vals;
      forall k | k in KeySet(v) ensures k in old(home) && old(home)[k] != n {
        RunHome(old(home), old(content), p, l, r, v, k);
      }
      RebalancedStoredElsewhere(p, l, r, i, n);
    }

    twostate lemma RebalancedCovers(new p: BNode, new l: BNode, new r: BNode, new i: nat)
      requires old(p in nodes && l in nodes && r in nodes && Linked() && Balanceable(p, l, r, i))
        && Rebalanced(p, l, r, i) && Owned()
      requires Within([p.vals[i]], l.lo, r.hi)
      requires Within(l.vals, l.lo, At(p.vals[i].key)) && Within(r.vals, At(p.vals[i].key), r.hi)
      ensures forall n :: n in nodes ==> Cover(n)
    {
      hide BNode.Rep, Sorted, Within, LoOf, HiOf, HomeAfter, KeySet, NodeOk, KidsOk, UpOk, Stored, Cover, RunKids,
        RunStored, Family;
      WithinOne(p.vals[i], l.lo, r.hi);
      RebalancedCoverSides(p, l, r, i);
      forall n | n in nodes ensures Cover(n) {
        assert old(Cover(n));
        if n != l && n != r { RebalancedCover(p, l, r, i, n); }
      }
    }

    twostate lemma RebalancedLinked(new p: BNode, new l: BNode, new r: BNode, new i: nat)
      requires old(p in nodes && l in nodes && r in nodes && Linked() && Balanceable(p, l, r, i)) && Rebalanced(p, l, r, i)
      ensures Linked()
    {
      hide BNode.Rep, Sorted, Within, LoOf, HiOf, HomeAfter, KeySet, NodeOk, KidsOk, UpOk, Stored, Cover, Balanceable;
      RebalancedRoot(p, l, r, i);
      RebalancedRun(p, l, r, i);
      RebalancedNodes(p, l, r, i);
      RebalancedLinks(p, l, r, i);
      RebalancedValues(p, l, r, i);
      RebalancedCovers(p, l, r, i);
    }

    // ---- The two rebalancing steps on the tree ----

    /** Every child has its node as parent, and every inner node's children are below it. */
    lemma KidParent(n: BNode, c: BNode)
      requires Linked() && n in nodes && c in n.kids
      ensures c in nodes && c.parent == n && c != root && c.height + 1 == n.height && !n.leaf && c.position < |n.kids|
      ensures n.kids[c.position] == c
    {
      hide BNode.Rep, Sorted, Within, LoOf, HiOf, KeySet, Stored, Cover, Owned;
      var j :| 0 <= j < |n.kids| && n.kids[j] == c;
      assert KidsOk(n) && KidOk(n, j) && NodeOk(n);
      KidsLeaf(n);
    }

    lemma KidsLeaf(n: BNode)
      requires Owned() && NodeOk(n)
      ensures n.leaf ==> n.kids == []
      ensures !n.leaf ==> |n.kids| == |n.vals| + 1 && n.height > 0
    {
      hide Sorted, Within;
    }

    lemma KidsDistinct(n: BNode)
      requires Linked() && n in nodes
      ensures Distinct(n.kids) && n.Placed()
    {
      hide BNode.Rep, Sorted, Within, LoOf, HiOf, KeySet, Stored, Cover, Owned, UpOk, NodeOk;
      assert KidsOk(n);
      forall j | 0 <= j < |n.kids| ensures n.kids[j].position == j && n.kids[j].parent == n {
        assert KidOk(n, j);
      }
    }

    lemma KidsApart(m: BNode, n: BNode)
      requires Linked() && m in nodes && n in nodes && m != n
      ensures Apart(m.kids, n.kids)
    {
      hide BNode.Rep, Sorted, Within, LoOf, HiOf, KeySet, Stored, Cover, Owned, UpOk, NodeOk, Linked;
      forall c ensures !(c in m.kids && c in n.kids) {
        if c in m.kids && c in n.kids {
          KidParent(m, c);
          KidParent(n, c);
        }
      }
    }

    lemma DistinctJoin(a: seq<BNode>, b: seq<BNode>)
      requires Distinct(a) && Distinct(b) && Apart(a, b)
      ensures Distinct(a + b)
    {
      forall i, j | 0 <= i < j < |a + b| ensures (a + b)[i] != (a + b)[j] {
        if i < |a| && j >= |a| { assert a[i] in a && b[j - |a|] in b; }
      }
    }

    lemma FamilyOk(p: BNode, l: BNode, r: BNode)
      requires Linked() && p in nodes && l in nodes && r in nodes && p != l && p != r && l != r
      requires l in p.kids && r in p.kids
      ensures Family(p, l, r)
    {
      hide BNode.Rep, Sorted, Within, LoOf, HiOf, KeySet, Stored, Cover, Owned, NodeOk, Linked;
      KidParent(p, l);
      KidParent(p, r);
      forall c | c in l.kids + r.kids
        ensures c != l && c != r && c != p && c != root && (c.parent == l || c.parent == r)
      {
        if c in l.kids { KidParent(l, c); } else { KidParent(r, c); }
      }
      forall n, c | n in nodes && c in n.kids ensures c.parent == n { KidParent(n, c); }
      forall n | n in nodes && n != root && (n.parent == l || n.parent == r) ensures n in l.kids + r.kids {
        ParentKid(n);
      }
    }

    lemma ParentKid(n: BNode)
      requires Linked() && n in nodes && n != root
      ensures n.parent != null && n.parent in nodes && n in n.parent.kids
      ensures n.position < |n.parent.kids| && n.parent.kids[n.position] == n
    {
      hide BNode.Rep, Sorted, Within, LoOf, HiOf, KeySet, Stored, Cover, Owned, NodeOk, KidsOk;
      assert UpOk(n);
    }

    lemma NodeAt(n: BNode)
      requires Linked() && n in nodes
      ensures Owned() && NodeOk(n) && KidsOk(n) && UpOk(n) && Stored(n) && Cover(n)
      ensures n.leaf <==> n.height == 0
      ensures n.count == |n.vals| <= n.maxCount && n.Rep() && (n != root ==> n.maxCount == nodeValues)
    {
      hide Sorted, Within, LoOf, HiOf, KeySet, KidOk;
    }

    /** l and r are neighbours below p. */
    lemma NeighboursOk(p: BNode, l: BNode, r: BNode)
      requires Linked() && p in nodes && l in nodes && r in nodes && l != root && l.parent == p
      requires l.position + 1 < |p.kids| && p.kids[l.position + 1] == r
      ensures Adjacent(p, l, r) && r != root && !p.leaf && l.height == r.height && l.leaf == r.leaf
    {
      hide Sorted, Within, LoOf, HiOf, KeySet, Stored, Cover, Owned, Linked;
      ParentKid(l);
      KidParent(p, l);
      NodeAt(p);
      NodeAt(l);
      NodeAt(r);
      assert KidOk(p, l.position + 1);
      KidParent(p, r);
    }

    /** What the node-level moves rely on holds of two neighbours in a linked tree. */
    lemma BesideOk(p: BNode, l: BNode, r: BNode)
      requires Linked() && p in nodes && l in nodes && r in nodes && l != root && r != root && Adjacent(p, l, r)
      requires !p.leaf && l.height == r.height && l.leaf == r.leaf
      ensures l.Beside(p, r) && l.Placed() && r.Placed()
    {
      hide Sorted, Within, LoOf, HiOf, KeySet, Stored, Cover, Linked, KidsOk, PlacedIn, Distinct, Apart, UpOk, Family;
      NodeAt(p);
      NodeAt(l);
      NodeAt(r);
      KidsDistinct(l);
      KidsDistinct(r);
      KidsApart(l, r);
      DistinctJoin(l.kids, r.kids);
      FamilyOk(p, l, r);
      FamilyParts(p, l, r);
      assert l != p && l != r && p != r && l.leaf == r.leaf;
      assert l.KidsRep() && r.KidsRep() && p.KidsRep();
      assert l.children != p.children && p.children != r.children && l.children != r.children;
      assert l.KidsBeside(p, r);
      assert l.ValsRep() && p.ValsRep() && r.ValsRep();
      assert !l.leaf ==> |l.kids| == l.count + 1 && |r.kids| == r.count + 1;
      assert |p.kids| == p.count + 1;
      assert l.values != p.values && l.values != r.values && p.values != r.values;
      assert l.Beside(p, r);
    }

    lemma FamilyParts(p: BNode, l: BNode, r: BNode)
      requires Family(p, l, r)
      ensures l !in l.kids && r !in l.kids && p !in l.kids && l !in r.kids && r !in r.kids && p !in r.kids
    {
      assert forall c :: c in l.kids ==> c in l.kids + r.kids;
      assert forall c :: c in r.kids ==> c in l.kids + r.kids;
    }

    lemma BalanceableOk(p: BNode, l: BNode, r: BNode)
      requires Linked() && p in nodes && l in nodes && r in nodes && l != root && r != root && Adjacent(p, l, r)
      requires !p.leaf && l.height == r.height && l.leaf == r.leaf
      ensures Balanceable(p, l, r, l.position)
    {
      hide Sorted, Within, LoOf, HiOf, KeySet, Linked, KidOk, Family, RunKid, AtHome, BNode.Rep;
      NodeAt(p);
      NodeAt(l);
      NodeAt(r);
      RunSorted(p, l, r);
      FamilyOk(p, l, r);
      RunIsStored(p, l, r, l.position);
      RunKidsOk(p, l, r);
    }

    lemma RunKidsOk(p: BNode, l: BNode, r: BNode)
      requires Linked() && p in nodes && l in nodes && r in nodes && Run(p, l, r, l.position) && l.height == r.height
        && l.leaf == r.leaf
      ensures RunKids(p, l, r, l.position)
    {
      hide Sorted, Within, LoOf, HiOf, KeySet, Linked, KidOk, RunKid, BNode.Rep, Run;
      NodeAt(l);
      NodeAt(r);
      KidsLeaf(l);
      KidsLeaf(r);
      forall j | 0 <= j < |l.kids + r.kids|
        ensures (l.kids + r.kids)[j] in nodes && RunKid(p, l, r, l.position, (l.kids + r.kids)[j], j)
      {
        RunKidAt(p, l, r, l.position, j);
      }
    }

    static lemma BesideCounts(p: BNode, l: BNode, r: BNode)
      requires l.Beside(p, r)
      ensures l.count == |l.vals| && r.count == |r.vals| && p.count == |p.vals| && l.position < |p.vals|
      ensures l.position < |p.vals|
    {
    }

    /** rebalance_right_to_left, with the bounds and homes brought up to date. */
    method PullCore(p: BNode, l: BNode, r: BNode, toMove: nat)
      requires p in nodes && l in nodes && r in nodes
      requires l.Beside(p, r) && l.Placed() && r.Placed() && 1 <= toMove <= r.count && l.count + toMove <= l.maxCount
      modifies `home, l`count, l`vals, l`kids, l`hi, l.values, l.children, r`count, r`vals, r`kids, r`lo, r.values,
        r.children, p`vals, p.values
      modifies (set c | c in r.kids)`parent, (set c | c in r.kids)`position
      ensures RebalancedAt(p, l, r, l.position) && l.position == old(l.position) && l.kids + r.kids == old(l.kids + r.kids)
      ensures l.vals == old(l.vals) + [old(p.vals)[l.position]] + old(r.vals)[..toMove - 1] && r.vals == old(r.vals)[toMove..]
    {
      hide BNode.Rep, Distinct, PlacedIn, BNode.ValsRep, BNode.KidsRep;
      BesideCounts(p, l, r);
      PullRun(l.vals, p.vals[l.position], r.vals, toMove);
      l.RebalanceRightToLeft(p, r, toMove);
      BookBalance(p, l, r, p.vals[l.position].key);
    }

    ghost method BookBalance(p: BNode, l: BNode, r: BNode, key: Key)
      requires l != r
      modifies `home, l`hi, r`lo
      ensures l.hi == At(key) && r.lo == At(key) && home == HomeAfter(old(home), p, l, r, key)
    {
      l.hi, r.lo := At(key), At(key);
      home := HomeAfter(home, p, l, r, key);
    }

    method PullStep(p: BNode, l: BNode, r: BNode, toMove: nat)
      requires Owned() && p in nodes && l in nodes && r in nodes
      requires l.Beside(p, r) && l.Placed() && r.Placed() && 1 <= toMove <= r.count && l.count + toMove <= l.maxCount
      modifies `home, l`count, l`vals, l`kids, l`hi, l.values, l.children, r`count, r`vals, r`kids, r`lo, r.values,
        r.children, p`vals, p.values
      modifies (set c | c in r.kids)`parent, (set c | c in r.kids)`position
      ensures Rebalanced(p, l, r, l.position) && l.position == old(l.position)
      ensures l.vals == old(l.vals) + [old(p.vals)[l.position]] + old(r.vals)[..toMove - 1] && r.vals == old(r.vals)[toMove..]
    {
      hide BNode.Rep, Distinct, PlacedIn, BNode.ValsRep, BNode.KidsRep, RebalancedAt;
      PullCore(p, l, r, toMove);
    }

    /** rebalance_left_to_right, with the bounds and homes brought up to date. */
    method PushCore(p: BNode, l: BNode, r: BNode, toMove: nat)
      requires p in nodes && l in nodes && r in nodes
      requires l.Beside(p, r) && l.Placed() && r.Placed() && 1 <= toMove <= l.count && r.count + toMove <= r.maxCount
      modifies `home, l`count, l`vals, l`kids, l`hi, l.values, l.children, r`count, r`vals, r`kids, r`lo, r.values,
        r.children, p`vals, p.values
      modifies (set c | c in l.kids)`parent, (set c | c in l.kids)`position
      modifies (set c | c in r.kids)`parent, (set c | c in r.kids)`position
      ensures RebalancedAt(p, l, r, l.position) && l.position == old(l.position) && l.kids + r.kids == old(l.kids + r.kids)
      ensures l.vals == old(l.vals)[..|old(l.vals)| - toMove]
      ensures r.vals == old(l.vals)[|old(l.vals)| - toMove + 1..] + [old(p.vals)[l.position]] + old(r.vals)
    {
      hide BNode.Rep, Distinct, PlacedIn, BNode.ValsRep, BNode.KidsRep;
      BesideCounts(p, l, r);
      PushRun(l.vals, p.vals[l.position], r.vals, toMove);
      l.RebalanceLeftToRight(p, r, toMove);
      BookBalance(p, l, r, p.vals[l.position].key);
    }

    method PushStep(p: BNode, l: BNode, r: BNode, toMove: nat)
      requires Owned() && p in nodes && l in nodes && r in nodes
      requires l.Beside(p, r) && l.Placed() && r.Placed() && 1 <= toMove <= l.count && r.count + toMove <= r.maxCount
      modifies `home, l`count, l`vals, l`kids, l`hi, l.values, l.children, r`count, r`vals, r`kids, r`lo, r.values,
        r.children, p`vals, p.values
      modifies (set c | c in l.kids)`parent, (set c | c in l.kids)`position
      modifies (set c | c in r.kids)`parent, (set c | c in r.kids)`position
      ensures Rebalanced(p, l, r, l.position) && l.position == old(l.position)
      ensures l.vals == old(l.vals)[..|old(l.vals)| - toMove]
      ensures r.vals == old(l.vals)[|old(l.vals)| - toMove + 1..] + [old(p.vals)[l.position]] + old(r.vals)
    {
      hide BNode.Rep, Distinct, PlacedIn, BNode.ValsRep, BNode.KidsRep, RebalancedAt;
      PushCore(p, l, r, toMove);
    }

    /** toMove values go from r to its left neighbour l. */
    method Pull(p: BNode, l: BNode, r: BNode, toMove: nat)
      requires Linked() && p in nodes && l in nodes && r in nodes && l != root && l.parent == p
      requires l.position + 1 < |p.kids| && p.kids[l.position + 1] == r
      requires 1 <= toMove <= |r.vals| && |l.vals| + toMove <= l.maxCount
      modifies Repr
      ensures Linked() && Rebalanced(p, l, r, l.position) && l.position == old(l.position)
      ensures root == old(root) && (root != null ==> root.size == old(root.size))
      ensures l.vals == old(l.vals) + [old(p.vals)[l.position]] + old(r.vals)[..toMove - 1] && r.vals == old(r.vals)[toMove..]
    {
      hide Linked, Rebalanced, Balanceable, BNode.Beside, Adjacent, BNode.Placed;
      NeighboursOk(p, l, r);
      BesideOk(p, l, r);
      BalanceableOk(p, l, r);
      NodeAt(l);
      NodeAt(r);
      OwnsNodes(p, l, r);
      PullStep(p, l, r, toMove);
      RebalancedLinked(p, l, r, l.position);
    }

    /** toMove values go from l to its right neighbour r. */
    method Push(p: BNode, l: BNode, r: BNode, toMove: nat)
      requires Linked() && p in nodes && l in nodes && r in nodes && l != root && l.parent == p
      requires l.position + 1 < |p.kids| && p.kids[l.position + 1] == r
      requires 1 <= toMove <= |l.vals| && |r.vals| + toMove <= r.maxCount
      modifies Repr
      ensures Linked() && Rebalanced(p, l, r, l.position) && l.position == old(l.position)
      ensures root == old(root) && (root != null ==> root.size == old(root.size))
      ensures l.vals == old(l.vals)[..|old(l.vals)| - toMove]
      ensures r.vals == old(l.vals)[|old(l.vals)| - toMove + 1..] + [old(p.vals)[l.position]] + old(r.vals)
    {
      hide Linked, Rebalanced, Balanceable, BNode.Beside, Adjacent, BNode.Placed;
      NeighboursOk(p, l, r);
      BesideOk(p, l, r);
      BalanceableOk(p, l, r);
      NodeAt(l);
      NodeAt(r);
      OwnsNodes(p, l, r);
      PushStep(p, l, r, toMove);
      RebalancedLinked(p, l, r, l.position);
    }

    lemma OwnsNodes(p: BNode, l: BNode, r: BNode)
      requires Linked() && p in nodes && l in nodes && r in nodes
      ensures this in Repr && p in Repr && l in Repr && r in Repr
      ensures p.values in Repr && l.values in Repr && r.values in Repr && p.children in Repr && l.children in Repr
        && r.children in Repr
      ensures forall c :: c in l.kids + r.kids ==> c in Repr
    {
      hide NodeOk, KidOk, Stored, Cover, UpOk, RootOk;
      forall c | c in l.kids + r.kids ensures c in Repr {
        if c in l.kids { KidParent(l, c); } else { KidParent(r, c); }
      }
    }

    // ---- Splitting a node ----

    /** n, a child of p, has given its values from some point on to the new right sibling d, and the one before to p. */
    twostate predicate SplitAt(new p: BNode, new n: BNode, new d: BNode, new i: nat)
      reads *
    {
      && p in old(nodes) && n in old(nodes) && d !in old(nodes) && p != n && d != p && d != n
      && nodes == old(nodes) + {d} && content == old(content) && root == old(root)
      && d !in old(Repr) && d.values !in old(Repr) && d.children !in old(Repr) && Repr == old(Repr) + {d, d.values, d.children}
      && i < |p.vals| && i <= |old(p.vals)| && i < |old(p.kids)| && old(p.kids)[i] == n
      && p.vals == old(p.vals)[..i] + [p.vals[i]] + old(p.vals)[i..]
        && p.kids == old(p.kids)[..i + 1] + [d] + old(p.kids)[i + 1..]
      && p.lo == old(p.lo) && p.hi == old(p.hi) && p.height == old(p.height) && SameLink(p)
      && n.lo == old(n.lo) && d.hi == old(n.hi) && n.height == old(n.height) && d.height == n.height && SameLink(n)
      && n.hi == At(p.vals[i].key) && d.lo == At(p.vals[i].key) && d.leaf == n.leaf && d.maxCount == n.maxCount
      && n.vals + [p.vals[i]] + d.vals == old(n.vals) && n.kids + d.kids == old(n.kids)
      && p.Settled() && n.Settled() && d.Settled()
      && home == HomeAfter(old(home), p, n, d, p.vals[i].key)
    }

    twostate predicate WasSplit(new p: BNode, new n: BNode, new d: BNode, new i: nat)
      reads *
    {
      SplitAt(p, n, d, i) && OthersSame({p, n}) && LinksSame(old(n.kids) + old(p.kids))
    }

    twostate lemma SplitOwned(new p: BNode, new n: BNode, new d: BNode, new i: nat)
      requires old(Owned()) && SplitAt(p, n, d, i)
      ensures Owned()
    {
      hide BNode.Rep, BNode.Placed, HomeAfter;
    }

    twostate lemma SplitSides(new p: BNode, new n: BNode, new d: BNode, new i: nat)
      requires old(Owned()) && Owned() && WasSplit(p, n, d, i) && old(n in nodes && NodeOk(n)) && n != root && d != root
      ensures NodeOk(n) && NodeOk(d) && Within([p.vals[i]], n.lo, d.hi)
      ensures Within(n.vals, n.lo, At(p.vals[i].key)) && Within(d.vals, At(p.vals[i].key), d.hi)
    {
      hide BNode.Rep, Sorted, Within, HomeAfter;
      PartSorted(n.vals, p.vals[i], d.vals, n.lo, d.hi);
    }

    twostate lemma SplitParent(new p: BNode, new n: BNode, new d: BNode, new i: nat)
      requires old(Owned()) && Owned() && WasSplit(p, n, d, i) && old(p in nodes && n in nodes && NodeOk(p) && KidOk(p, i))
      requires Within([p.vals[i]], n.lo, d.hi)
      ensures NodeOk(p)
    {
      hide BNode.Rep, Sorted, Within, HomeAfter;
      assert n.lo == LoOf(old(p.vals), p.lo, i) && d.hi == HiOf(old(p.vals), p.hi, i);
      WiderWithin(old(p.vals), i, p.vals[i], p.lo, p.hi);
      SortedInsert(old(p.vals), i, p.vals[i], p.lo, p.hi);
    }

    twostate lemma SplitKidsP(new p: BNode, new n: BNode, new d: BNode, new i: nat)
      requires old(Owned()) && Owned() && WasSplit(p, n, d, i) && old(p in nodes && n in nodes && KidsOk(p))
      requires forall c :: c in old(p.kids) ==> c != p
      ensures KidsOk(p)
    {
      hide BNode.Rep, Sorted, Within, LoOf, HiOf, HomeAfter, LinksSame;
      assert old(KidOk(p, |p.kids| - 1));
      forall j | 0 <= j < |p.kids| ensures KidOk(p, j) {
        BoundsInsert(old(p.vals), i, p.vals[i], p.lo, p.hi, j);
        assert old(KidOk(p, i));
        if j != i && j != i + 1 {
          var j0 := if j < i then j else j - 1;
          assert p.kids[j] == old(p.kids)[j0];
          assert old(KidOk(p, j0));
          assert Same(p.kids[j]);
        }
      }
    }

    twostate lemma SplitKid(new p: BNode, new n: BNode, new d: BNode, new i: nat, new j: nat)
      requires old(Owned()) && Owned() && WasSplit(p, n, d, i) && old(n in nodes && KidsOk(n)) && j < |n.kids + d.kids|
      requires n !in n.kids + d.kids && p !in n.kids + d.kids
      ensures (n.kids + d.kids)[j] in nodes && (n.kids + d.kids)[j].height + 1 == n.height && j <= |n.vals| + 1 + |d.vals|
      ensures (n.kids + d.kids)[j].lo == LoOf(n.vals + [p.vals[i]] + d.vals, n.lo, j)
      ensures (n.kids + d.kids)[j].hi == HiOf(n.vals + [p.vals[i]] + d.vals, d.hi, j)
    {
      hide BNode.Rep, Sorted, Within, LoOf, HiOf, HomeAfter, LinksSame;
      assert old(KidOk(n, j));
      assert Same((n.kids + d.kids)[j]);
    }

    twostate lemma SplitKidsN(new p: BNode, new n: BNode, new d: BNode, new i: nat)
      requires old(Owned()) && Owned() && WasSplit(p, n, d, i) && old(n in nodes && KidsOk(n)) && !n.leaf
      requires n !in n.kids + d.kids && p !in n.kids + d.kids
      ensures KidsOk(n)
    {
      hide Sorted, Within, HomeAfter, LoOf, HiOf, OthersSame, LinksSame;
      forall j | 0 <= j < |n.kids| ensures KidOk(n, j) {
        SplitKid(p, n, d, i, j);
        assert (n.kids + d.kids)[j] == n.kids[j];
        BoundsLeft(n.vals, p.vals[i], d.vals, n.lo, d.hi, j);
      }
    }

    twostate lemma SplitKidD(new p: BNode, new n: BNode, new d: BNode, new i: nat, new j: nat)
      requires old(Owned()) && Owned() && WasSplit(p, n, d, i) && old(n in nodes && KidsOk(n)) && !n.leaf
      requires n !in n.kids + d.kids && p !in n.kids + d.kids && j < |d.kids|
      ensures KidOk(d, j)
    {
      hide Sorted, Within, HomeAfter, LoOf, HiOf, OthersSame, LinksSame, KidsOk;
      SplitKid(p, n, d, i, |n.kids| + j);
      assert (n.kids + d.kids)[|n.kids| + j] == d.kids[j];
      BoundsRight(n.vals, p.vals[i], d.vals, n.lo, d.hi, j);
    }

    twostate lemma SplitKidsD(new p: BNode, new n: BNode, new d: BNode, new i: nat)
      requires old(Owned()) && Owned() && WasSplit(p, n, d, i) && old(n in nodes && KidsOk(n)) && !n.leaf
      requires n !in n.kids + d.kids && p !in n.kids + d.kids
      ensures KidsOk(d)
    {
      hide BNode.Rep, Sorted, Within, HomeAfter, LoOf, HiOf, OthersSame, LinksSame, KidOk;
      forall j | 0 <= j < |d.kids| ensures KidOk(d, j) {
        SplitKidD(p, n, d, i, j);
      }
    }

    twostate lemma SplitElsewhere(new p: BNode, new n: BNode, new d: BNode, new i: nat, new m: BNode)
      requires old(Owned()) && Owned() && WasSplit(p, n, d, i)
      requires m in old(nodes) && m != p && m != n && old(NodeOk(m) && KidsOk(m) && Cover(m))
      requires forall c :: c in old(m.kids) ==> c != n && c !in old(n.kids) + old(p.kids)
      ensures NodeOk(m) && KidsOk(m) && Cover(m)
    {
      hide BNode.Rep, Sorted, Within, LoOf, HiOf, HomeAfter, KeySet;
      assert Same(m);
      forall j | 0 <= j < |m.kids| ensures KidOk(m, j) {
        assert old(KidOk(m, j));
        assert m.kids[j] in m.kids && SameLink(m.kids[j]);
        assert m.kids[j] != p ==> Same(m.kids[j]);
      }
    }

    twostate lemma SplitUp(new p: BNode, new n: BNode, new d: BNode, new i: nat, new m: BNode)
      requires old(Owned()) && Owned() && WasSplit(p, n, d, i) && m in nodes && (m in old(nodes) ==> old(UpOk(m)))
      requires m != d && m !in n.kids + d.kids + p.kids ==> m == root || old(m.parent != n && m.parent != p)
      ensures UpOk(m)
    {
      hide BNode.Rep, Sorted, Within, LoOf, HiOf, HomeAfter;
      if m in n.kids {
        var j :| 0 <= j < |n.kids| && n.kids[j] == m;
      } else if m in d.kids {
        var j :| 0 <= j < |d.kids| && d.kids[j] == m;
      } else if m in p.kids {
        var j :| 0 <= j < |p.kids| && p.kids[j] == m;
      } else {
        assert p.kids[i + 1] == d;
        assert forall c :: c in old(p.kids) ==> c in p.kids;
        assert SameLink(m);
        if m != root { assert Same(m.parent); }
      }
    }

    twostate lemma SplitStoredOther(new p: BNode, new n: BNode, new d: BNode, new i: nat, new m: BNode)
      requires old(Owned()) && Owned() && WasSplit(p, n, d, i) && m in old(nodes) && m != p && m != n
      requires old(n in nodes && Stored(n) && Stored(m))
      ensures Stored(m)
    {
      hide BNode.Rep, Sorted, Within, LoOf, HiOf, KeySet;
      assert Same(m);
      KeySetJoin(n.vals, p.vals[i], d.vals);
      forall k | k in KeySet(n.vals) + {p.vals[i].key} + KeySet(d.vals) ensures k in old(home) && old(home)[k] == n {
        StoredKey(old(home), old(content), n, old(n.vals), k);
      }
    }

    static lemma StoredKey(home: map<Key, BNode>, content: map<Key, Data>, n: BNode, v: seq<Entry>, k: Key)
      requires forall i :: 0 <= i < |v| ==> v[i].key in home && home[v[i].key] == n
      requires k in KeySet(v)
      ensures k in home && home[k] == n
    {
    }

    twostate lemma SplitStoredSides(new p: BNode, new n: BNode, new d: BNode, new i: nat)
      requires old(Owned()) && Owned() && WasSplit(p, n, d, i) && old(n in nodes && Stored(n))
      requires Within(n.vals, n.lo, At(p.vals[i].key)) && Within(d.vals, At(p.vals[i].key), d.hi)
      ensures Stored(n) && Stored(d)
    {
      hide BNode.Rep, Sorted;
      var x := p.vals[i];
      var v := n.vals + [x] + d.vals;
      forall j | 0 <= j < |n.vals| ensures v[j] == n.vals[j] && n.vals[j].key in KeySet(n.vals) {}
      forall j | 0 <= j < |d.vals| ensures v[|n.vals| + 1 + j] == d.vals[j] && d.vals[j].key in KeySet(d.vals)
        && d.vals[j].key !in KeySet(n.vals) {
        if d.vals[j].key in KeySet(n.vals) { KeysWithin(n.vals, n.lo, At(x.key), d.vals[j].key); }
      }
    }

    twostate lemma SplitStoredParent(new p: BNode, new n: BNode, new d: BNode, new i: nat)
      requires old(Owned()) && Owned() && WasSplit(p, n, d, i)
      requires old(p in nodes && n in nodes && Stored(p) && Stored(n) && KidOk(p, i)) && Sorted(p.vals)
      requires Within(n.vals, n.lo, At(p.vals[i].key)) && Within(d.vals, At(p.vals[i].key), d.hi)
      ensures Stored(p)
    {
      hide BNode.Rep;
      var x := p.vals[i];
      assert (n.vals + [x] + d.vals)[|n.vals|] == x;
      forall j | 0 <= j < |p.vals| ensures p.vals[j].key !in KeySet(n.vals) && p.vals[j].key !in KeySet(d.vals) {
        assert n.lo == LoOf(p.vals, p.lo, i)
          && d.hi == HiOf(p.vals, p.hi, i + 1) by { BoundsInsert(old(p.vals), i, x, p.lo, p.hi,
            i); BoundsInsert(old(p.vals), i, x, p.lo, p.hi, i + 1); }
        ParentKeyApart(p, n, d, i, j);
      }
      forall j | 0 <= j < |p.vals| && j != i ensures p.vals[j] == old(p.vals)[if j < i then j else j - 1] {
      }
    }

    twostate lemma SplitCoverSides(new p: BNode, new n: BNode, new d: BNode, new i: nat)
      requires old(Owned()) && Owned() && WasSplit(p, n, d, i) && old(n in nodes && Cover(n))
      requires Within(n.vals, n.lo, At(p.vals[i].key)) && Within(d.vals, At(p.vals[i].key), d.hi)
      requires Above(n.lo, p.vals[i].key) && Under(p.vals[i].key, d.hi)
      ensures Cover(n) && Cover(d)
    {
      hide BNode.Rep, Sorted, KeySet, Within, HomeAfter;
      if n.leaf {
        var x := p.vals[i];
        KeySetJoin(n.vals, x, d.vals);
        forall k | k in KeySet(n.vals) ensures k < x.key { KeysWithin(n.vals, n.lo, At(x.key), k); }
        forall k | k in KeySet(d.vals) ensures x.key < k { KeysWithin(d.vals, At(x.key), d.hi, k); }
      }
    }

    /** The new node takes over as the rightmost leaf if its left sibling was that. */
    twostate lemma SplitRoot(new p: BNode, new n: BNode, new d: BNode, new i: nat)
      requires old(Linked()) && Owned() && WasSplit(p, n, d, i) && n != root && root != null
      requires root !in old(n.kids) + old(p.kids)
      requires !root.leaf ==> root.rightmost == if old(root.rightmost) == n then d else old(root.rightmost)
      ensures RootOk()
    {
      hide BNode.Rep, Sorted, Within, KeySet, NodeOk, KidsOk, UpOk, Stored, Cover;
      assert home.Keys == old(home).Keys;
      assert SameLink(root);
    }

    /** No child of n or p is one of the two, or a child of another node. */
    ghost predicate Kin(p: BNode, n: BNode)
      reads `nodes, `root, nodes, p, n
    {
      && n !in n.kids && p !in n.kids && p !in p.kids && (root != null ==> root !in n.kids + p.kids)
      && (forall m, c :: m in nodes && m != p && m != n && c in m.kids ==> c != n && c !in n.kids + p.kids)
      && (forall m :: m in nodes && m !in n.kids + p.kids ==> m == root || (m.parent != n && m.parent != p))
    }

    lemma KinOk(p: BNode, n: BNode)
      requires Linked() && p in nodes && n in p.kids
      ensures n in nodes && Kin(p, n) && n != p && n != root && n.parent == p && Apart(n.kids, p.kids)
    {
      hide BNode.Rep, Sorted, Within, LoOf, HiOf, KeySet, Stored, Cover, Owned, NodeOk, Linked, UpOk, KidsOk;
      KidParent(p, n);
      KidsApart(n, p);
      forall m, c | m in nodes && c in m.kids ensures c.parent == m && c != root && c != m { KidParent(m, c); }
      forall c | c in n.kids ensures c != p {
        KidParent(n, c);
      }
      forall c | c in n.kids + p.kids ensures c.parent == n || c.parent == p {
        if c in n.kids { KidParent(n, c); } else { KidParent(p, c); }
      }
      forall m | m in nodes && m != root && (m.parent == n || m.parent == p) ensures m in n.kids + p.kids {
        ParentKid(m);
      }
    }

    /** The three nodes of the split. */
    twostate lemma SplitThree(new p: BNode, new n: BNode, new d: BNode, new i: nat)
      requires old(Linked()) && WasSplit(p, n, d, i) && n != root && root != null && old(n in nodes && p in nodes
        && Kin(p, n)) && Owned()
      ensures NodeOk(p) && NodeOk(n) && NodeOk(d) && KidsOk(p) && KidsOk(n) && KidsOk(d)
      ensures Stored(p) && Stored(n) && Stored(d) && Cover(p) && Cover(n) && Cover(d)
    {
      hide BNode.Rep, Sorted, Within, LoOf, HiOf, HomeAfter, KeySet, OthersSame, LinksSame, NodeOk, KidOk, Stored, Cover, UpOk;
      assert old(NodeOk(n) && NodeOk(p) && KidsOk(n) && KidsOk(p) && Stored(n) && Stored(p) && Cover(n) && Cover(p)
        && KidOk(p, i));
      SplitSides(p, n, d, i);
      SplitParent(p, n, d, i);
      NodeSorted(p);
      SplitKidsP(p, n, d, i);
      SplitStoredSides(p, n, d, i);
      SplitStoredParent(p, n, d, i);
      WithinOne(p.vals[i], n.lo, d.hi);
      SplitCoverSides(p, n, d, i);
      ParentCover(p, n);
      if n.leaf {
        LeafKids(n);
        LeafKids(d);
      } else {
        SplitKidsN(p, n, d, i);
        SplitKidsD(p, n, d, i);
      }
    }

    lemma NodeSorted(n: BNode)
      requires Owned() && NodeOk(n)
      ensures Sorted(n.vals) && (n.leaf <==> n.height == 0) && n.Rep()
    {
    }

    /** An inner node has nothing to cover. */
    lemma ParentCover(p: BNode, c: BNode)
      requires Owned() && NodeOk(p) && c in p.kids
      ensures Cover(p)
    {
      hide Sorted, Within, KeySet;
    }

    twostate lemma SplitLinks(new p: BNode, new n: BNode, new d: BNode, new i: nat, new m: BNode)
      requires old(Linked()) && WasSplit(p, n, d, i) && n != root && root != null && old(n in nodes && p in nodes
        && Kin(p, n)) && Owned()
      requires m in nodes
      ensures UpOk(m)
    {
      hide BNode.Rep, Sorted, Within, LoOf, HiOf, HomeAfter, KeySet, OthersSame, LinksSame, NodeOk, KidsOk, Stored, Cover, RootOk;
      assert m in old(nodes) ==> old(UpOk(m));
      assert forall c :: c in old(p.kids) ==> c in p.kids;
      assert p.kids[i + 1] == d;
      assert forall c :: c in old(n.kids) ==> c in n.kids + d.kids;
      SplitUp(p, n, d, i, m);
    }

    twostate lemma SplitFar(new p: BNode, new n: BNode, new d: BNode, new i: nat, new m: BNode)
      requires old(Linked()) && WasSplit(p, n, d, i) && n != root && root != null && old(n in nodes && p in nodes
        && Kin(p, n)) && Owned()
      requires m in nodes && m != n && m != p && m != d
      ensures NodeOk(m) && KidsOk(m) && Stored(m) && Cover(m)
    {
      hide BNode.Rep, Sorted, Within, LoOf, HiOf, HomeAfter, KeySet, OthersSame, LinksSame, RootOk, UpOk, KidOk;
      SplitElsewhere(p, n, d, i, m);
      SplitStoredOther(p, n, d, i, m);
    }

    twostate lemma SplitLinked(new p: BNode, new n: BNode, new d: BNode, new i: nat)
      requires old(Linked()) && WasSplit(p, n, d, i) && n != root && root != null && old(n in nodes && p in nodes && Kin(p, n))
      requires !root.leaf ==> root.rightmost == if old(root.rightmost) == n then d else old(root.rightmost)
      ensures Linked()
    {
      hide BNode.Rep, Sorted, Within, LoOf, HiOf, HomeAfter, KeySet, OthersSame, LinksSame, NodeOk, KidsOk, Stored, Cover, UpOk;
      SplitOwned(p, n, d, i);
      SplitRoot(p, n, d, i);
      SplitThree(p, n, d, i);
      forall m | m in nodes ensures NodeOk(m) && KidsOk(m) && UpOk(m) && Stored(m) && Cover(m) {
        SplitLinks(p, n, d, i, m);
        if m != n && m != p && m != d {
          SplitFar(p, n, d, i, m);
        }
      }
    }

    method SplitCore(p: BNode, n: BNode, d: BNode, insertPosition: nat)
      requires p in nodes && n in nodes && d !in nodes && d !in Repr && d.values !in Repr && d.children !in Repr
      requires n.Splits(p, d) && root != null
      requires root in nodes
      modifies root`rightmost, `home, `nodes, `Repr, n`count, n`vals, n`kids, n`hi, n.values, n.children, d, d.values, d.children
      modifies p`count, p`vals, p`kids, p.values, p.children
      modifies (set k | k in n.kids)`parent, (set k | k in n.kids)`position, (set k | k in p.kids)`position
      ensures SplitAt(p, n, d, n.position) && n.position == old(n.position)
      ensures BNode.Biased(n.maxCount, insertPosition, |n.vals|, |d.vals|) && |n.vals| + 1 + |d.vals| == |old(n.vals)|
      ensures Repr == old(Repr) + {d, d.values, d.children}
      ensures root.rightmost == if n.leaf && old(root.rightmost) == n then d else old(root.rightmost)
    {
      hide BNode.Rep, Distinct, PlacedIn, BNode.ValsRep, BNode.KidsRep, BNode.Splits, BNode.KidsSplit, BNode.Biased,
        BNode.Settled, HomeAfter;
      SplitsParts(p, n, d);
      ghost var i := n.position;
      SplitMove(p, n, d, insertPosition);
      BookSplit(p, n, d, p.vals[i].key);
    }

    /** split, and the rightmost leaf brought up to date. */
    method SplitMove(p: BNode, n: BNode, d: BNode, insertPosition: nat)
      requires n.Splits(p, d) && root != null && p != n && d != p && d != n
      requires n.position <= |p.vals| && n.position < |p.kids|
      modifies root`rightmost, n`count, n`vals, n`kids, n.values, n.children, d`count, d`vals, d`kids, d`parent,
        d`position, d.values, d.children
      modifies p`count, p`vals, p`kids, p.values, p.children
      modifies (set k | k in n.kids)`parent, (set k | k in n.kids)`position, (set k | k in p.kids)`position
      ensures n.position == old(n.position) < |p.vals| && n.position <= |old(p.vals)| && n.position < |old(p.kids)|
      ensures p.vals == old(p.vals)[..n.position] + [p.vals[n.position]] + old(p.vals)[n.position..]
      ensures p.kids == old(p.kids)[..n.position + 1] + [d] + old(p.kids)[n.position + 1..]
      ensures n.vals + [p.vals[n.position]] + d.vals == old(n.vals) && n.kids + d.kids == old(n.kids)
      ensures p.Settled() && n.Settled() && d.Settled()
      ensures BNode.Biased(n.maxCount, insertPosition, |n.vals|, |d.vals|) && |n.vals| + 1 + |d.vals| == |old(n.vals)|
      ensures root == old(root) && root.rightmost == if n.leaf && old(root.rightmost) == n then d else old(root.rightmost)
    {
      hide BNode.Rep, Distinct, PlacedIn, BNode.ValsRep, BNode.KidsRep, BNode.Splits, BNode.KidsSplit, BNode.Biased,
        BNode.Settled;
      ghost var run := n.vals;
      n.Split(p, d, insertPosition);
      CutRun(run, |n.vals|);
      if n.leaf && root.rightmost == n {
        root.rightmost := d;
      }
    }

    ghost method BookSplit(p: BNode, n: BNode, d: BNode, key: Key)
      requires n != d
      modifies `home, `nodes, `Repr, n`hi, d`lo, d`hi, d`height
      ensures n.hi == At(key) && d.lo == At(key) && d.hi == old(n.hi) && d.height == n.height
      ensures nodes == old(nodes) + {d} && Repr == old(Repr) + {d, d.values, d.children}
        && home == HomeAfter(old(home), p, n, d, key)
    {
      d.hi, d.height := n.hi, n.height;
      n.hi, d.lo := At(key), At(key);
      home := HomeAfter(home, p, n, d, key);
      nodes := nodes + {d};
      Repr := Repr + {d, d.values, d.children};
    }

    static lemma SplitsParts(p: BNode, n: BNode, d: BNode)
      requires n.Splits(p, d)
      ensures n.position <= |p.vals| && n.position < |p.kids| && p.kids[n.position] == n && p != n && d != p && d != n
      ensures |p.kids| == |p.vals| + 1 && d !in p.kids && n !in n.kids && p !in n.kids && p !in p.kids && d !in n.kids
      ensures d.leaf == n.leaf && d.maxCount == n.maxCount
    {
    }

    method SplitStep(p: BNode, n: BNode, d: BNode, insertPosition: nat)
      requires Owned() && p in nodes && n in nodes && d !in nodes && d !in Repr && d.values !in Repr && d.children !in Repr
      requires n.Splits(p, d) && root != null
      requires root in nodes
      modifies root`rightmost, `home, `nodes, `Repr, n`count, n`vals, n`kids, n`hi, n.values, n.children, d, d.values, d.children
      modifies p`count, p`vals, p`kids, p.values, p.children
      modifies (set k | k in n.kids)`parent, (set k | k in n.kids)`position, (set k | k in p.kids)`position
      ensures WasSplit(p, n, d, n.position) && n.position == old(n.position)
      ensures BNode.Biased(n.maxCount, insertPosition, |n.vals|, |d.vals|) && |n.vals| + 1 + |d.vals| == |old(n.vals)|
      ensures Repr == old(Repr) + {d, d.values, d.children}
      ensures root.rightmost == if n.leaf && old(root.rightmost) == n then d else old(root.rightmost)
    {
      hide BNode.Rep, Distinct, PlacedIn, BNode.ValsRep, BNode.KidsRep, SplitAt, BNode.Splits, BNode.Settled;
      SplitCore(p, n, d, insertPosition);
    }

    /** What split relies on holds of a child of an inner node with room, and a new node. */
    lemma SplitsOk(p: BNode, n: BNode, d: BNode)
      requires Linked() && p in nodes && n in nodes && n != root && n.parent == p && |p.vals| < p.maxCount && |n.vals| >= 1
      requires d !in nodes && d.leaf == n.leaf && d.maxCount == n.maxCount && d.ValsRep() && d.vals == [] && d.kids == []
      requires d.children.Length == (if d.leaf then 0 else d.maxCount + 1)
      requires d.values !in Repr && d.children !in Repr
      ensures n.Splits(p, d) && n in p.kids && n != p
    {
      hide Sorted, Within, LoOf, HiOf, KeySet, Stored, Cover, Linked, KidsOk, PlacedIn, Distinct, Apart, UpOk, BNode.ValsRep;
      ParentKid(n);
      KidParent(p, n);
      NodeAt(p);
      NodeAt(n);
      KidsLeaf(n);
      KidsDistinct(n);
      KidsDistinct(p);
      KinOk(p, n);
      NotKid(d, n);
      NotKid(d, p);
      OwnsNodes(p, n, n);
      assert n.KidsSplit(p, d);
    }

    lemma NotKid(d: BNode, n: BNode)
      requires Linked() && n in nodes && d !in nodes
      ensures d !in n.kids
    {
      hide Linked;
      if d in n.kids { KidParent(n, d); }
    }

    /** split of n, which is not the root, into itself and the new node d. */
    method SplitNode(p: BNode, n: BNode, d: BNode, insertPosition: nat)
      requires Linked() && p in nodes && n in nodes && n != root && root != null && n.parent == p
      requires |p.vals| < p.maxCount && |n.vals| >= 1
      requires d !in nodes && d !in Repr && d.values !in Repr && d.children !in Repr && d.leaf == n.leaf
        && d.maxCount == n.maxCount
      requires d.ValsRep() && d.vals == [] && d.kids == [] && d.children.Length == (if d.leaf then 0 else d.maxCount + 1)
      modifies Repr, d, d.values, d.children
      ensures Linked() && WasSplit(p, n, d, n.position) && n.position == old(n.position) && root == old(root) && !root.leaf
      ensures BNode.Biased(n.maxCount, insertPosition, |n.vals|, |d.vals|) && |n.vals| + 1 + |d.vals| == |old(n.vals)|
      ensures root.size == old(root.size) && Repr == old(Repr) + {d, d.values, d.children}
    {
      hide Linked, BNode.Splits, WasSplit, BNode.Biased, BNode.ValsRep;
      NodeAt(n);
      KinRoot(p, n);
      OwnsNodes(root, p, n);
      SplitsOk(p, n, d);
      SplitStep(p, n, d, insertPosition);
      SplitLinked(p, n, d, n.position);
    }

    /** No node is higher than the root. */
    lemma {:induction false} TopHeight(n: BNode)
      requires Linked() && n in nodes && root != null
      ensures n.height <= root.height
      decreases |set m | m in nodes && m.height > n.height|
    {
      hide Linked;
      if n != root {
        ParentKid(n);
        KidParent(n.parent, n);
        FewerAbove(n);
        TopHeight(n.parent);
      }
    }

    lemma FewerAbove(n: BNode)
      requires n.parent != null && n.parent in nodes && n.parent.height == n.height + 1
      ensures |set m | m in nodes && m.height > n.parent.height| < |set m | m in nodes && m.height > n.height|
    {
      var a, b := set m | m in nodes && m.height > n.parent.height, set m | m in nodes && m.height > n.height;
      assert a <= b - {n.parent};
      Smaller(a, b - {n.parent});
    }

    static lemma {:induction false} Smaller(a: set<BNode>, b: set<BNode>)
      requires a <= b
      ensures |a| <= |b|
    {
      if x :| x in a {
        Smaller(a - {x}, b - {x});
      }
    }

    lemma KinRoot(p: BNode, n: BNode)
      requires Linked() && p in nodes && n in nodes && n != root && n.parent == p && root != null
      ensures root in nodes && !root.leaf && n in p.kids && Kin(p, n) && n != p
      ensures root.rightmost == n ==> n.leaf
    {
      hide BNode.Rep, Sorted, Within, LoOf, HiOf, KeySet, Stored, Cover, NodeOk, KidsOk, UpOk, Kin;
      ParentKid(n);
      KinOk(p, n);
      KidParent(p, n);
      TopHeight(p);
      NodeAt(root);
    }

    // ---- Merging two neighbours ----

    ghost function HomeMerged(was: map<Key, BNode>, l: BNode): map<Key, BNode>
      reads l
    {
      map k | k in was :: if k in KeySet(l.vals) then l else was[k]
    }

    /** l has taken the delimiter at position i of p and all of its right neighbour r, which is gone. */
    twostate predicate MergeAt(new p: BNode, new l: BNode, new r: BNode, new i: nat)
      reads *
    {
      && p in old(nodes) && l in old(nodes) && r in old(nodes) && p != l && p != r && l != r
      && nodes == old(nodes) - {r} && content == old(content) && root == old(root) && Repr == old(Repr)
      && i < |old(p.vals)| && i + 1 < |old(p.kids)| && old(p.kids)[i] == l && old(p.kids)[i + 1] == r
      && p.vals == old(p.vals)[..i] + old(p.vals)[i + 1..] && p.kids == old(p.kids)[..i + 1] + old(p.kids)[i + 2..]
      && p.lo == old(p.lo) && p.hi == old(p.hi) && p.height == old(p.height) && SameLink(p)
      && l.lo == old(l.lo) && l.hi == old(r.hi) && l.height == old(l.height) && SameLink(l)
      && l.vals == old(l.vals) + [old(p.vals)[i]] + old(r.vals) && l.kids == old(l.kids) + old(r.kids)
      && p.Settled() && l.Settled()
      && home == HomeMerged(old(home), l)
    }

    twostate predicate Merged(new p: BNode, new l: BNode, new r: BNode, new i: nat)
      reads *
    {
      MergeAt(p, l, r, i) && OthersSame({p, l, r}) && LinksSame(old(r.kids) + old(p.kids))
    }

    twostate lemma MergedNodes(new p: BNode, new l: BNode, new r: BNode, new i: nat)
      requires old(Owned()) && Owned() && Merged(p, l, r, i)
      requires old(p in nodes && l in nodes && r in nodes && NodeOk(p) && NodeOk(l) && Run(p, l, r, i)) && l != root
      ensures NodeOk(p) && NodeOk(l)
    {
      hide BNode.Rep, Sorted, Within, HomeMerged;
      SortedRemove(old(p.vals), i, p.lo, p.hi);
    }

    twostate lemma MergedKidsP(new p: BNode, new l: BNode, new r: BNode, new i: nat)
      requires old(Owned()) && Owned() && Merged(p, l, r, i) && old(p in nodes && l in nodes && r in nodes && KidsOk(p)
        && Run(p, l, r, i))
      requires forall c :: c in old(p.kids) ==> c != p
      ensures KidsOk(p)
    {
      hide BNode.Rep, Sorted, Within, LoOf, HiOf, HomeMerged, LinksSame;
      assert old(KidOk(p, |p.kids| - 1));
      var x := old(p.vals)[i];
      assert old(p.vals) == p.vals[..i] + [x] + p.vals[i..];
      forall j | 0 <= j < |p.kids| ensures KidOk(p, j) {
        BoundsInsert(p.vals, i, x, p.lo, p.hi, j);
        BoundsInsert(p.vals, i, x, p.lo, p.hi, j + 1);
        assert old(KidOk(p, i)) && old(KidOk(p, i + 1));
        if j != i {
          var j0 := if j < i then j else j + 1;
          assert p.kids[j] == old(p.kids)[j0];
          assert old(KidOk(p, j0));
          assert Same(p.kids[j]);
        }
      }
    }

    twostate lemma MergedKidsL(new p: BNode, new l: BNode, new r: BNode, new i: nat)
      requires old(Owned()) && Owned() && Merged(p, l, r, i) && old(p in nodes && l in nodes && r in nodes && RunKids(p, l, r, i))
      requires l !in l.kids && r !in l.kids && p !in l.kids
      ensures KidsOk(l)
    {
      hide BNode.Rep, Sorted, Within, LoOf, HiOf, HomeMerged, LinksSame;
      forall j | 0 <= j < |l.kids| ensures KidOk(l, j) {
        assert l.kids[j] == old(l.kids + r.kids)[j];
        assert Same(l.kids[j]);
      }
    }

    twostate lemma MergedElsewhere(new p: BNode, new l: BNode, new r: BNode, new i: nat, new m: BNode)
      requires old(Owned()) && Owned() && Merged(p, l, r, i)
      requires m in old(nodes) && m != p && m != l && m != r && old(NodeOk(m) && KidsOk(m) && Cover(m))
      requires forall c :: c in old(m.kids) ==> c != l && c != r && c !in old(r.kids) + old(p.kids)
      ensures NodeOk(m) && KidsOk(m) && Cover(m)
    {
      hide BNode.Rep, Sorted, Within, LoOf, HiOf, HomeMerged, KeySet;
      assert Same(m);
      forall j | 0 <= j < |m.kids| ensures KidOk(m, j) {
        assert old(KidOk(m, j));
        assert m.kids[j] in m.kids && SameLink(m.kids[j]);
        assert m.kids[j] != p ==> Same(m.kids[j]);
      }
    }

    twostate lemma MergedUp(new p: BNode, new l: BNode, new r: BNode, new i: nat, new m: BNode)
      requires old(Owned()) && Owned() && Merged(p, l, r, i) && m in nodes && old(UpOk(m))
      requires m !in l.kids + p.kids ==> m == root || old(m.parent != l && m.parent != r && m.parent != p)
      requires m !in l.kids + p.kids ==> m !in old(r.kids) + old(p.kids)
      ensures UpOk(m)
    {
      hide BNode.Rep, Sorted, Within, LoOf, HiOf, HomeMerged;
      if m in l.kids {
        var j :| 0 <= j < |l.kids| && l.kids[j] == m;
      } else if m in p.kids {
        var j :| 0 <= j < |p.kids| && p.kids[j] == m;
      } else {
        assert SameLink(m);
        if m != root { assert Same(m.parent); }
      }
    }

    twostate lemma MergedStoredOther(new p: BNode, new l: BNode, new r: BNode, new i: nat, new m: BNode)
      requires old(Owned()) && Owned() && Merged(p, l, r, i) && m in old(nodes) && m != p && m != l && m != r
      requires old(p in nodes && l in nodes && r in nodes && Stored(m) && i < |p.vals|
        && RunStored(p, l, r, l.vals + [p.vals[i]] + r.vals))
      ensures Stored(m)
    {
      hide BNode.Rep, Sorted, Within, LoOf, HiOf, KeySet, AtHome;
      assert Same(m);
      forall k | k in KeySet(l.vals) ensures k in old(home) && old(home)[k] != m {
        RunHome(old(home), old(content), p, l, r, l.vals, k);
      }
    }

    twostate lemma MergedStoredL(new p: BNode, new l: BNode, new r: BNode, new i: nat)
      requires old(Owned()) && Owned() && Merged(p, l, r, i)
      requires old(p in nodes && l in nodes && r in nodes && i < |p.vals| && RunStored(p, l, r, l.vals + [p.vals[i]] + r.vals))
      ensures Stored(l)
    {
      hide BNode.Rep, Sorted;
      forall j | 0 <= j < |l.vals| ensures l.vals[j].key in KeySet(l.vals) {}
    }

    twostate lemma MergedStoredP(new p: BNode, new l: BNode, new r: BNode, new i: nat)
      requires old(Owned()) && Owned() && Merged(p, l, r, i)
      requires old(p in nodes && l in nodes && r in nodes && Stored(p) && Run(p, l, r, i) && Sorted(p.vals))
      ensures Stored(p)
    {
      hide BNode.Rep;
      var x := old(p.vals)[i];
      PartSorted(old(l.vals), x, old(r.vals), l.lo, l.hi);
      KeySetJoin(old(l.vals), x, old(r.vals));
      forall j | 0 <= j < |p.vals| ensures p.vals[j].key !in KeySet(l.vals) {
        var k := p.vals[j].key;
        if k in KeySet(l.vals) {
          KeysWithin(l.vals, l.lo, l.hi, k);
        }
      }
      forall j | 0 <= j < |p.vals| ensures p.vals[j] == old(p.vals)[if j < i then j else j + 1] {
      }
    }

    twostate lemma MergedCoverL(new p: BNode, new l: BNode, new r: BNode, new i: nat)
      requires old(Owned()) && Owned() && Merged(p, l, r, i) && l.leaf == r.leaf
      requires old(p in nodes && l in nodes && r in nodes && Cover(l) && Cover(r) && Run(p, l, r, i))
      ensures Cover(l)
    {
      hide BNode.Rep, Sorted, KeySet, Within, HomeMerged;
      if l.leaf {
        KeySetJoin(old(l.vals), old(p.vals)[i], old(r.vals));
      }
    }

    /** How the nodes around a merge are related. */
    ghost predicate Kin3(p: BNode, l: BNode, r: BNode)
      reads `nodes, `root, nodes, p, l, r
    {
      && l !in l.kids + r.kids && r !in l.kids + r.kids && p !in l.kids + r.kids && p !in p.kids
      && (root != null ==> root !in l.kids + r.kids + p.kids)
      && (forall m, c :: m in nodes && m != p && m != l && m != r && c in m.kids ==> c != l && c != r && c !in l.kids + r.kids + p.kids)
      && (forall m :: m in nodes && m !in l.kids + r.kids + p.kids ==> m == root || (m.parent != l && m.parent != r && m.parent != p))
    }

    lemma Kin3Ok(p: BNode, l: BNode, r: BNode)
      requires Linked() && p in nodes && l in p.kids && r in p.kids && l != r
      ensures l in nodes && r in nodes && Kin3(p, l, r) && l != p && r != p
    {
      hide BNode.Rep, Sorted, Within, LoOf, HiOf, KeySet, Stored, Cover, Owned, NodeOk, Linked, UpOk, KidsOk;
      KidParent(p, l);
      KidParent(p, r);
      forall m, c | m in nodes && c in m.kids ensures c.parent == m && c != root && c != m
        && c.height + 1 == m.height { KidParent(m, c); }
      forall m | m in nodes && m != root
        && (m.parent == l || m.parent == r || m.parent == p) ensures m in l.kids + r.kids + p.kids {
        ParentKid(m);
      }
      forall c | c in l.kids + r.kids + p.kids ensures c.parent == l || c.parent == r || c.parent == p {
        if c in l.kids { KidParent(l, c); } else if c in r.kids { KidParent(r, c); } else { KidParent(p, c); }
      }
    }

    twostate lemma MergedRoot(new p: BNode, new l: BNode, new r: BNode, new i: nat)
      requires old(Linked()) && Owned() && Merged(p, l, r, i) && r != root && root != null
      requires old(p in nodes && l in nodes && r in nodes && Run(p, l, r, i))
      requires root !in old(r.kids) + old(p.kids) && l.leaf == r.leaf
      requires !root.leaf ==> root.rightmost == if old(root.rightmost) == r then l else old(root.rightmost)
      ensures RootOk()
    {
      hide BNode.Rep, Sorted, Within, KeySet, NodeOk, KidsOk, UpOk, Stored, Cover;
      assert home.Keys == old(home).Keys;
      assert SameLink(root);
    }

    /** What merging relies on beforehand, besides a linked tree. */
    ghost predicate Mergeable(p: BNode, l: BNode, r: BNode, i: nat)
      reads this, p, l, r, nodes, l.kids, r.kids
    {
      && p in nodes && l in nodes && r in nodes && Run(p, l, r, i) && RunKids(p, l, r, i)
      && RunStored(p, l, r, l.vals + [p.vals[i]] + r.vals) && Kin3(p, l, r)
      && l != root && r != root && !p.leaf && l.leaf == r.leaf && root != null
    }

    lemma MergeableOk(p: BNode, l: BNode, r: BNode)
      requires Linked() && p in nodes && l in nodes && r in nodes && l != root && l.parent == p && root != null
      requires l.position + 1 < |p.kids| && p.kids[l.position + 1] == r
      ensures Mergeable(p, l, r, l.position) && Adjacent(p, l, r)
    {
      hide Linked, RunKids, AtHome, Sorted, Within, LoOf, HiOf, Kin3, Family;
      NeighboursOk(p, l, r);
      BalanceableOk(p, l, r);
      assert l in p.kids && r in p.kids;
      Kin3Ok(p, l, r);
    }

    twostate lemma MergedThree(new p: BNode, new l: BNode, new r: BNode, new i: nat)
      requires old(p in nodes && l in nodes && r in nodes && Linked() && Mergeable(p, l, r, i)) && Merged(p, l, r, i) && Owned()
      ensures NodeOk(p) && NodeOk(l) && KidsOk(p) && KidsOk(l) && Stored(p) && Stored(l) && Cover(p) && Cover(l)
    {
      hide BNode.Rep, Sorted, Within, LoOf, HiOf, HomeMerged, KeySet, OthersSame, LinksSame, NodeOk, KidOk, Stored, Cover,
        UpOk, RunKids, AtHome, Kin3;
      assert old(NodeOk(p) && NodeOk(l) && NodeOk(r) && KidsOk(p) && Stored(p) && Cover(p) && Cover(l) && Cover(r));
      MergedNodes(p, l, r, i);
      MergedSorted(p);
      MergedKin(p, l, r, i);
      MergedKidsP(p, l, r, i);
      MergedKidsL(p, l, r, i);
      MergedStoredL(p, l, r, i);
      MergedStoredP(p, l, r, i);
      MergedCoverL(p, l, r, i);
      ParentCover(p, p.kids[i]);
    }

    twostate lemma MergedSorted(new p: BNode)
      requires old(Owned() && p in nodes && NodeOk(p))
      ensures Sorted(old(p.vals))
    {
    }

    twostate lemma MergedKin(new p: BNode, new l: BNode, new r: BNode, new i: nat)
      requires old(p in nodes && l in nodes && r in nodes && Kin3(p, l, r)) && Merged(p, l, r, i)
      ensures (forall c :: c in old(p.kids) ==> c != p) && l !in l.kids && r !in l.kids && p !in l.kids
      ensures p.kids[i] in p.kids
    {
      hide OthersSame, LinksSame, BNode.Settled, HomeMerged;
    }

    twostate lemma MergedLinks(new p: BNode, new l: BNode, new r: BNode, new i: nat, new m: BNode)
      requires old(p in nodes && l in nodes && r in nodes && Linked() && Mergeable(p, l, r, i)) && Merged(p, l, r, i) && Owned()
      requires m in nodes
      ensures UpOk(m)
    {
      hide BNode.Rep, Sorted, Within, LoOf, HiOf, HomeMerged, KeySet, OthersSame, LinksSame, NodeOk, KidsOk, Stored, Cover,
        RunKids, AtHome;
      assert old(UpOk(m));
      KidsLeft(old(p.kids), i, r, m);
      MergedUp(p, l, r, i, m);
    }

    static lemma KidsLeft(cs: seq<BNode>, i: nat, r: BNode, m: BNode)
      requires i + 1 < |cs| && cs[i + 1] == r && m != r
      ensures m in cs <==> m in cs[..i + 1] + cs[i + 2..]
    {
    }

    twostate lemma MergedFar(new p: BNode, new l: BNode, new r: BNode, new i: nat, new m: BNode)
      requires old(p in nodes && l in nodes && r in nodes && Linked() && Mergeable(p, l, r, i)) && Merged(p, l, r, i) && Owned()
      requires m in nodes && m != p && m != l
      ensures NodeOk(m) && KidsOk(m) && Stored(m) && Cover(m)
    {
      hide BNode.Rep, Sorted, Within, LoOf, HiOf, HomeMerged, KeySet, OthersSame, LinksSame, UpOk, KidOk, RunKids, AtHome;
      forall c | c in old(m.kids) ensures c != l && c != r && c !in old(r.kids) + old(p.kids) {
        assert c !in old(l.kids + r.kids + p.kids);
      }
      MergedElsewhere(p, l, r, i, m);
      MergedStoredOther(p, l, r, i, m);
    }

    twostate lemma MergedOwned(new p: BNode, new l: BNode, new r: BNode, new i: nat)
      requires old(Owned()) && MergeAt(p, l, r, i)
      ensures Owned()
    {
      hide BNode.Settled, HomeMerged;
    }

    twostate lemma MergedLinked(new p: BNode, new l: BNode, new r: BNode, new i: nat)
      requires old(p in nodes && l in nodes && r in nodes && Linked() && Mergeable(p, l, r, i)) && Merged(p, l, r, i)
      requires !root.leaf ==> root.rightmost == if old(root.rightmost) == r then l else old(root.rightmost)
      ensures Linked()
    {
      hide BNode.Rep, Sorted, Within, LoOf, HiOf, HomeMerged, KeySet, OthersSame, LinksSame, NodeOk, KidsOk, Stored, Cover,
        UpOk, RunKids, AtHome;
      MergedOwned(p, l, r, i);
      MergedRoot(p, l, r, i);
      MergedThree(p, l, r, i);
      forall m | m in nodes ensures NodeOk(m) && KidsOk(m) && UpOk(m) && Stored(m) && Cover(m) {
        MergedLinks(p, l, r, i, m);
        if m != p && m != l {
          MergedFar(p, l, r, i, m);
        }
      }
    }

    method MergeCore(p: BNode, l: BNode, r: BNode)
      requires p in nodes && l in nodes && r in nodes && root != null && root in nodes && l.Merges(p, r)
      modifies root`rightmost, `home, `nodes, l`count, l`vals, l`kids, l`hi, l.values, l.children
      modifies r`count, r`vals, r`kids, r.values, r.children, p`count, p`vals, p`kids, p.values, p.children
      modifies (set k | k in r.kids)`parent, (set k | k in r.kids)`position, (set k | k in p.kids)`position
      ensures MergeAt(p, l, r, l.position) && l.position == old(l.position)
      ensures root.rightmost == if r.leaf && old(root.rightmost) == r then l else old(root.rightmost)
    {
      hide BNode.Rep, Distinct, PlacedIn, BNode.ValsRep, BNode.KidsRep, BNode.Merges, BNode.Settled;
      MergesParts(p, l, r);
      l.Merge(p, r);
      if r.leaf && root.rightmost == r {
        root.rightmost := l;
      }
      BookMerge(l, r);
    }

    static lemma MergesParts(p: BNode, l: BNode, r: BNode)
      requires l.Merges(p, r)
      ensures p != l && p != r && l != r && l.position < |p.vals| && l.position + 1 < |p.kids|
      ensures p.kids[l.position] == l && p.kids[l.position + 1] == r
      ensures p !in p.kids && l !in l.kids && r !in l.kids && p !in l.kids && l !in r.kids && r !in r.kids && p !in r.kids
    {
    }

    ghost method BookMerge(l: BNode, r: BNode)
      requires l != r
      modifies `home, `nodes, l`hi
      ensures l.hi == r.hi && nodes == old(nodes) - {r} && home == HomeMerged(old(home), l)
    {
      l.hi := r.hi;
      home := HomeMerged(home, l);
      nodes := nodes - {r};
    }

    method MergeStep(p: BNode, l: BNode, r: BNode)
      requires Owned() && p in nodes && l in nodes && r in nodes && root != null && root in nodes && l.Merges(p, r)
      modifies root`rightmost, `home, `nodes, l`count, l`vals, l`kids, l`hi, l.values, l.children
      modifies r`count, r`vals, r`kids, r.values, r.children, p`count, p`vals, p`kids, p.values, p.children
      modifies (set k | k in r.kids)`parent, (set k | k in r.kids)`position, (set k | k in p.kids)`position
      ensures Merged(p, l, r, l.position) && l.position == old(l.position)
      ensures root.rightmost == if r.leaf && old(root.rightmost) == r then l else old(root.rightmost)
    {
      hide BNode.Rep, Distinct, PlacedIn, BNode.ValsRep, BNode.KidsRep, MergeAt, BNode.Merges, BNode.Settled;
      MergeCore(p, l, r);
    }

    /** What merge relies on holds of two neighbours small enough. */
    lemma MergesOk(p: BNode, l: BNode, r: BNode)
      requires Linked() && p in nodes && l in nodes && r in nodes && l != root && l.parent == p && root != null
      requires l.position + 1 < |p.kids| && p.kids[l.position + 1] == r && 1 + |l.vals| + |r.vals| <= l.maxCount
      ensures l.Merges(p, r)
    {
      hide Sorted, Within, LoOf, HiOf, KeySet, Stored, Cover, Linked, KidsOk, PlacedIn, Distinct, UpOk, BNode.ValsRep,
        BNode.Beside;
      NeighboursOk(p, l, r);
      BesideOk(p, l, r);
      KidsDistinct(p);
      KidsApart(l, p);
      KidsApart(r, p);
      NodeAt(l);
      NodeAt(r);
      assert l in p.kids && r in p.kids;
      Kin3Ok(p, l, r);
    }

    /** merge_nodes */
    method MergeNodes(p: BNode, l: BNode, r: BNode)
      requires Linked() && p in nodes && l in nodes && r in nodes && l != root && l.parent == p && root != null
      requires l.position + 1 < |p.kids| && p.kids[l.position + 1] == r && 1 + |l.vals| + |r.vals| <= l.maxCount
      modifies Repr
      ensures Linked() && Merged(p, l, r, l.position) && l.position == old(l.position) && root == old(root)
        && root.size == old(root.size)
    {
      hide Linked, BNode.Merges, Merged, Mergeable;
      MergesOk(p, l, r);
      MergeableOk(p, l, r);
      NodeAt(l);
      RootIn(p);
      OwnsNodes(root, p, r);
      OwnsNodes(l, p, r);
      MergeStep(p, l, r);
      MergedLinked(p, l, r, l.position);
    }

    lemma RootIn(n: BNode)
      requires Linked() && n in nodes
      ensures root != null && root in nodes
      ensures !root.leaf ==> root.rightmost != null && root.rightmost.leaf
    {
      hide BNode.Rep, Sorted, Within, LoOf, HiOf, KeySet, Stored, Cover, NodeOk, KidsOk, UpOk;
    }

    // ---- A value into a leaf, and out of it ----

    /** k lies strictly between the bounds of n. */
    ghost predicate Spans(n: BNode, k: Key)
      reads n
    {
      Above(n.lo, k) && Under(k, n.hi)
    }

    /** A child's bounds lie within its parent's. */
    lemma KidSpans(p: BNode, j: nat, k: Key)
      requires Owned() && NodeOk(p) && KidOk(p, j) && Spans(p.kids[j], k)
      ensures Spans(p, k)
    {
      hide BNode.Rep, Sorted;
      if j > 0 { assert Above(p.lo, p.vals[j - 1].key); }
      if j < |p.vals| { assert Under(p.vals[j].key, p.hi); }
    }

    /** Two children do not span the same key. */
    lemma KidsPart(p: BNode, i: nat, j: nat, k: Key)
      requires Owned() && NodeOk(p) && KidOk(p, i) && KidOk(p, j) && Spans(p.kids[i], k) && Spans(p.kids[j], k)
      ensures i == j
    {
      hide BNode.Rep, Within;
    }

    /** On each level at most one node spans a key. */
    lemma {:induction false} OneSpans(m: BNode, n: BNode, k: Key)
      requires Linked() && root != null && m in nodes && n in nodes && m.height == n.height && Spans(m, k) && Spans(n, k)
      ensures m == n
      decreases root.height - m.height
    {
      hide Linked, Spans, KidOk, BNode.Rep, Sorted, Within;
      TopHeight(m);
      if m == root || n == root {
        OnlyRootAtTop(m);
        OnlyRootAtTop(n);
      } else {
        ParentKid(m);
        ParentKid(n);
        KidParent(m.parent, m);
        KidParent(n.parent, n);
        NodeAt(m.parent);
        NodeAt(n.parent);
        KidSpans(m.parent, m.position, k);
        KidSpans(n.parent, n.position, k);
        TopHeight(m.parent);
        OneSpans(m.parent, n.parent, k);
        KidsPart(m.parent, m.position, n.position, k);
      }
    }

    lemma OnlyRootAtTop(m: BNode)
      requires Linked() && m in nodes && root != null && m.height == root.height
      ensures m == root
    {
      hide Linked;
      if m != root {
        ParentKid(m);
        KidParent(m.parent, m);
        TopHeight(m.parent);
      }
    }

    /** No other leaf spans k. */
    ghost predicate Alone(n: BNode, k: Key)
      reads `nodes, nodes
    {
      forall m :: m in nodes && m.leaf && m != n ==> !Spans(m, k)
    }

    lemma OneLeafSpans(n: BNode, k: Key)
      requires Linked() && root != null && n in nodes && n.leaf && Spans(n, k)
      ensures Alone(n, k)
    {
      hide Linked, Spans;
      NodeAt(n);
      forall m | m in nodes && m.leaf && Spans(m, k) ensures m == n {
        NodeAt(m);
        OneSpans(m, n, k);
      }
    }

    /** The entry e has come into the leaf n at pos. */
    twostate predicate LeafInserted(new n: BNode, new pos: nat, new e: Entry)
      reads *
    {
      && n in old(nodes) && n.leaf && nodes == old(nodes) && root == old(root) && Repr == old(Repr)
      && content == old(content)[e.key := e.data] && home == old(home)[e.key := n]
      && pos <= |old(n.vals)| && n.vals == old(n.vals)[..pos] + [e] + old(n.vals)[pos..]
      && n.kids == old(n.kids) && n.lo == old(n.lo) && n.hi == old(n.hi) && n.height == old(n.height) && n.Rep()
      && OthersSame({n}) && LinksSame([]) && (root != null ==> root.rightmost == old(root.rightmost))
    }

    twostate lemma LeafInsertedAt(new n: BNode, new pos: nat, new e: Entry)
      requires old(Owned()) && Owned() && LeafInserted(n, pos, e)
      requires old(n in nodes && NodeOk(n) && Stored(n) && Cover(n) && pos <= |n.vals| && home.Keys == content.Keys)
      requires old(n in nodes && pos <= |n.vals| && Within([e], LoOf(n.vals, n.lo, pos), HiOf(n.vals, n.hi, pos)))
      requires e.key !in old(content)
      ensures NodeOk(n) && KidsOk(n) && Stored(n) && Cover(n)
    {
      hide Sorted, Within, LoOf, HiOf, OthersSame, LinksSame, Stored, Cover, KeySet;
      WiderWithin(old(n.vals), pos, e, n.lo, n.hi);
      SortedInsert(old(n.vals), pos, e, n.lo, n.hi);
      LeafInsertedValues(n, pos, e);
    }

    twostate lemma LeafInsertedValues(new n: BNode, new pos: nat, new e: Entry)
      requires old(Owned()) && Owned() && LeafInserted(n, pos, e)
      requires old(n in nodes && Stored(n) && Cover(n) && pos <= |n.vals| && home.Keys == content.Keys) && e.key !in old(content)
      ensures Stored(n) && Cover(n)
    {
      hide BNode.Rep, OthersSame, LinksSame, KeySet;
      KeySetInsert(old(n.vals), pos, e);
    }

    twostate lemma LeafInsertedElsewhere(new n: BNode, new pos: nat, new e: Entry, new m: BNode)
      requires old(Owned()) && Owned() && LeafInserted(n, pos, e) && m in old(nodes) && m != n && e.key !in old(content)
      requires old(m in nodes && home.Keys == content.Keys && NodeOk(m) && KidsOk(m) && Stored(m) && Cover(m)
        && (m.leaf ==> !Spans(m, e.key)))
      ensures NodeOk(m) && KidsOk(m) && Stored(m) && Cover(m)
    {
      hide BNode.Rep, Sorted, Within, LoOf, HiOf, KeySet;
      assert Same(m);
      forall j | 0 <= j < |m.kids| ensures KidOk(m, j) {
        assert old(KidOk(m, j));
        assert SameLink(m.kids[j]);
        assert m.kids[j] != n ==> Same(m.kids[j]);
      }
    }

    twostate lemma LeafInsertedUp(new n: BNode, new pos: nat, new e: Entry, new m: BNode)
      requires old(Owned()) && Owned() && LeafInserted(n, pos, e) && m in old(nodes) && old(UpOk(m))
      ensures UpOk(m)
    {
      hide BNode.Rep, Sorted, Within, LoOf, HiOf, KeySet;
      assert SameLink(m);
      if m != root && m.parent != n { assert Same(m.parent); }
    }

    twostate lemma LeafInsertedLinked(new n: BNode, new pos: nat, new e: Entry)
      requires old(Linked()) && LeafInserted(n, pos, e) && root != null && e.key !in old(content)
      requires old(n in nodes && pos <= |n.vals| && Within([e], LoOf(n.vals, n.lo, pos), HiOf(n.vals, n.hi, pos)))
      requires old(n in nodes && Alone(n, e.key))
      ensures Linked()
    {
      hide BNode.Rep, Sorted, Within, LoOf, HiOf, KeySet, NodeOk, KidsOk, Stored, Cover, UpOk, OthersSame, Spans;
      assert Owned() && RootOk() by {
        assert SameLink(root);
        LeafInsertedRoot(n, pos, e);
      }
      assert old(NodeOk(n) && Stored(n) && Cover(n));
      LeafInsertedAt(n, pos, e);
      forall m | m in nodes ensures NodeOk(m) && KidsOk(m) && UpOk(m) && Stored(m) && Cover(m) {
        assert old(NodeOk(m) && KidsOk(m) && UpOk(m) && Stored(m) && Cover(m));
        LeafInsertedUp(n, pos, e, m);
        if m != n { LeafInsertedElsewhere(n, pos, e, m); }
      }
    }

    twostate lemma LeafInsertedRoot(new n: BNode, new pos: nat, new e: Entry)
      requires old(Linked()) && LeafInserted(n, pos, e) && root != null
      ensures Owned() && RootOk()
    {
      hide BNode.Rep, Sorted, Within, LoOf, HiOf, KeySet, NodeOk, KidsOk, Stored, Cover, UpOk;
      assert SameLink(root);
    }

    /** insert_value into a leaf with room, between the neighbours of the absent key. */
    method InsertInLeaf(n: BNode, pos: nat, e: Entry)
      requires Linked() && root != null && n in nodes && n.leaf && |n.vals| < n.maxCount && e.key !in content
      requires pos <= |n.vals| && Within([e], LoOf(n.vals, n.lo, pos), HiOf(n.vals, n.hi, pos))
      modifies Repr
      ensures Linked() && LeafInserted(n, pos, e) && root == old(root) && root != null && root.size == old(root.size)
    {
      hide Linked, Within, LoOf, HiOf, LeafInserted, Alone;
      SpansBetween(n, pos, e);
      OneLeafSpans(n, e.key);
      OwnsNodes(n, n, n);
      NodeAt(n);
      InsertStep(n, pos, e);
      LeafInsertedLinked(n, pos, e);
    }

    method InsertStep(n: BNode, pos: nat, e: Entry)
      requires Owned() && n in nodes && n.leaf && n.Rep() && |n.vals| < n.maxCount && pos <= |n.vals|
      modifies `home, `content, n`count, n`vals, n.values
      ensures LeafInserted(n, pos, e)
    {
      hide BNode.ValsRep, BNode.KidsRep;
      LeafCount(n);
      n.InsertValue(pos, e);
      content := content[e.key := e.data];
      home := home[e.key := n];
    }

    static lemma LeafCount(n: BNode)
      requires n.Rep()
      ensures n.count == |n.vals|
    {
    }

    lemma SpansBetween(n: BNode, pos: nat, e: Entry)
      requires Linked() && n in nodes && pos <= |n.vals| && Within([e], LoOf(n.vals, n.lo, pos), HiOf(n.vals, n.hi, pos))
      ensures Spans(n, e.key)
    {
      hide Linked, Sorted, BNode.Rep;
      NodeAt(n);
      WiderWithin(n.vals, pos, e, n.lo, n.hi);
      WithinOne(e, n.lo, n.hi);
    }

    /** The entry at pos has left the leaf n. */
    twostate predicate LeafRemoved(new n: BNode, new pos: nat, new k: Key)
      reads *
    {
      && n in old(nodes) && n.leaf && nodes == old(nodes) && root == old(root) && Repr == old(Repr)
      && content == old(content) - {k} && home == old(home) - {k}
      && pos < |old(n.vals)| && old(n.vals)[pos].key == k && n.vals == old(n.vals)[..pos] + old(n.vals)[pos + 1..]
      && n.kids == old(n.kids) && n.lo == old(n.lo) && n.hi == old(n.hi) && n.height == old(n.height) && n.Rep()
      && OthersSame({n}) && LinksSame([]) && (root != null ==> root.rightmost == old(root.rightmost))
    }

    twostate lemma LeafRemovedAt(new n: BNode, new pos: nat, new k: Key)
      requires old(Owned()) && Owned() && LeafRemoved(n, pos, k) && old(n in nodes && NodeOk(n) && Stored(n) && Cover(n)
        && Sorted(n.vals))
      ensures NodeOk(n) && KidsOk(n) && Stored(n) && Cover(n)
    {
      hide Within, LoOf, HiOf, OthersSame, LinksSame, KeySet;
      SortedRemove(old(n.vals), pos, n.lo, n.hi);
      KeySetRemove(old(n.vals), pos);
      forall j | 0 <= j < |n.vals| ensures n.vals[j] == old(n.vals)[if j < pos then j else j + 1] && n.vals[j].key != k {
      }
    }

    twostate lemma LeafRemovedElsewhere(new n: BNode, new pos: nat, new k: Key, new m: BNode)
      requires old(Owned()) && Owned() && LeafRemoved(n, pos, k) && m in old(nodes) && m != n
      requires old(m in nodes && n in nodes && Stored(n) && NodeOk(m) && KidsOk(m) && Stored(m) && Cover(m))
      ensures NodeOk(m) && KidsOk(m) && Stored(m) && Cover(m)
    {
      hide BNode.Rep, Sorted, Within, LoOf, HiOf, KeySet;
      assert Same(m);
      assert old(home)[k] == n;
      forall j | 0 <= j < |m.kids| ensures KidOk(m, j) {
        assert old(KidOk(m, j));
        assert SameLink(m.kids[j]);
        assert m.kids[j] != n ==> Same(m.kids[j]);
      }
    }

    twostate lemma LeafRemovedUp(new n: BNode, new pos: nat, new k: Key, new m: BNode)
      requires old(Owned()) && Owned() && LeafRemoved(n, pos, k) && m in old(nodes) && old(UpOk(m))
      ensures UpOk(m)
    {
      hide BNode.Rep, Sorted, Within, LoOf, HiOf, KeySet;
      assert SameLink(m);
      if m != root && m.parent != n { assert Same(m.parent); }
    }

    twostate lemma LeafRemovedRoot(new n: BNode, new pos: nat, new k: Key)
      requires old(Linked()) && LeafRemoved(n, pos, k) && root != null
      ensures Owned() && RootOk()
    {
      hide BNode.Rep, Sorted, Within, LoOf, HiOf, KeySet, NodeOk, KidsOk, Stored, Cover, UpOk;
      assert SameLink(root);
    }

    twostate lemma LeafRemovedLinked(new n: BNode, new pos: nat, new k: Key)
      requires old(Linked()) && LeafRemoved(n, pos, k) && root != null
      ensures Linked()
    {
      hide BNode.Rep, Sorted, Within, LoOf, HiOf, KeySet, KidsOk, Stored, Cover, UpOk, OthersSame, Spans;
      LeafRemovedRoot(n, pos, k);
      assert old(NodeOk(n) && Stored(n) && Cover(n));
      LeafRemovedAt(n, pos, k);
      forall m | m in nodes ensures NodeOk(m) && KidsOk(m) && UpOk(m) && Stored(m) && Cover(m) {
        assert old(NodeOk(m) && KidsOk(m) && UpOk(m) && Stored(m) && Cover(m));
        LeafRemovedUp(n, pos, k, m);
        if m != n { LeafRemovedElsewhere(n, pos, k, m); }
      }
    }

    /** remove_value from a leaf. */
    method RemoveFromLeaf(n: BNode, pos: nat)
      requires Linked() && root != null && n in nodes && n.leaf && pos < |n.vals|
      modifies Repr
      ensures pos < |old(n.vals)| && Linked() && LeafRemoved(n, pos, old(n.vals)[pos].key) && root == old(root) && root != null
      ensures root.size == old(root.size)
    {
      hide Linked, LeafRemoved;
      OwnsNodes(n, n, n);
      NodeAt(n);
      ghost var k := n.vals[pos].key;
      RemoveStep(n, pos);
      LeafRemovedLinked(n, pos, k);
    }

    method RemoveStep(n: BNode, pos: nat)
      requires Owned() && n in nodes && n.leaf && n.Rep() && pos < |n.vals|
      modifies `home, `content, n`count, n`vals, n.values
      ensures pos < |old(n.vals)| && LeafRemoved(n, pos, old(n.vals)[pos].key)
    {
      hide BNode.ValsRep, BNode.KidsRep;
      LeafCount(n);
      ghost var k := n.vals[pos].key;
      n.RemoveValue(pos);
      content := content - {k};
      home := home - {k};
    }

    // ---- Root steps ----

    /** A leaf root is the only node and holds everything. */
    lemma LeafRootAlone()
      requires Linked() && root != null && root.leaf
      ensures nodes == {root} && root.parent == root && content.Keys == KeySet(root.vals) && |root.vals| == |content|
    {
      hide Linked, KeySet, Within, BNode.Rep;
      RootBounds();
      NodeAt(root);
      forall n | n in nodes ensures n == root {
        TopHeight(n);
        if n != root {
          ParentKid(n);
          KidParent(n.parent, n);
          TopHeight(n.parent);
        }
      }
      StoredKeys(root);
      CoversAll(root);
      KeyCount(root.vals);
    }

    lemma RootBounds()
      requires Linked() && root != null
      ensures root in nodes && root.lo == Open && root.hi == Open && root.parent != null && root.parent in nodes
        && root.parent.leaf
      ensures root.parent.lo == Open && home.Keys == content.Keys && nodeValues >= 3
      ensures !root.leaf ==> root.rightmost != null && root.rightmost in nodes && root.rightmost.leaf && root.rightmost.hi == Open
    {
      hide BNode.Rep, Sorted, Within, LoOf, HiOf, KeySet, Stored, Cover, NodeOk, KidsOk, UpOk;
    }

    lemma CoversAll(n: BNode)
      requires Owned() && Cover(n) && n.leaf && n.lo == Open && n.hi == Open
      ensures content.Keys <= KeySet(n.vals)
    {
      forall k: Key | k in content ensures k in KeySet(n.vals) {}
    }

    lemma StoredKeys(n: BNode)
      requires Owned() && Stored(n)
      ensures KeySet(n.vals) <= content.Keys
    {
    }

    /** A new internal root R has come in above the leaf o. */
    twostate predicate Raised(new o: BNode, new x: BNode)
      reads *
    {
      && o in old(nodes) && old(root) == o && old(nodes) == {o} && x !in old(nodes) && x != o && !x.leaf
        && x.maxCount == nodeValues
      && nodes == old(nodes) + {x} && root == x && content == old(content) && home == old(home)
      && x.values !in old(Repr) && x.children !in old(Repr) && Repr == old(Repr) + {x, x.values, x.children}
      && x.vals == [] && x.kids == [o] && x.lo == Open && x.hi == Open && x.height == o.height + 1 && x.Settled()
      && x.parent == o && x.rightmost == o
      && o.vals == old(o.vals) && o.kids == old(o.kids) && o.lo == old(o.lo) && o.hi == old(o.hi)
        && o.height == old(o.height) && o.Rep()
    }

    twostate lemma RaisedLinked(new o: BNode, new x: BNode)
      requires old(Linked()) && Raised(o, x) && o.leaf && o.maxCount == nodeValues
      ensures Linked()
    {
      hide Sorted, Within, KeySet;
      assert old(NodeOk(o) && Stored(o) && Cover(o) && KidsOk(o));
      assert Owned();
      assert RootOk();
      assert x.kids[0] == o && o.parent == x && o.position == 0;
      assert KidOk(x, 0);
      assert NodeOk(o);
      assert NodeOk(x) by { NoVals(x); }
    }

    lemma NoVals(x: BNode)
      requires x.vals == []
      ensures Sorted(x.vals) && Within(x.vals, x.lo, x.hi)
    {
    }

    /** A new internal node without values or children. */
    ghost predicate Blank(x: BNode)
      reads this, x, x.values
    {
      && x !in nodes && x !in Repr && x.values !in Repr && x.children !in Repr && !x.leaf && x.maxCount == nodeValues
      && x.ValsRep() && x.vals == [] && x.kids == [] && x.children.Length == nodeValues + 1
    }

    /** set_child of the leaf root on the new root x, which takes over. */
    method RaiseStep(x: BNode, o: BNode)
      requires Owned() && root == o && nodes == {o} && Blank(x) && o.Rep() && x.parent == o && x.rightmost == o
      modifies `root, `nodes, `Repr, o`parent, o`position, x`kids, x`lo, x`hi, x`height, x.children
      ensures Raised(o, x) && Repr == old(Repr) + {x, x.values, x.children} && root == x && x.size == old(x.size)
    {
      x.SetChild(0, o);
      root := x;
      BookRaise(x, o);
    }

    ghost method BookRaise(x: BNode, o: BNode)
      modifies `nodes, `Repr, x`kids, x`lo, x`hi, x`height
      ensures x.kids == [o] && x.lo == Open && x.hi == Open && x.height == old(o.height) + 1
      ensures nodes == old(nodes) + {x} && Repr == old(Repr) + {x, x.values, x.children}
        && (x != o ==> o.height == old(o.height) && o.kids == old(o.kids) && o.lo == old(o.lo) && o.hi == old(o.hi))
    {
      x.lo, x.hi, x.height, x.kids := Open, Open, o.height + 1, [o];
      nodes := nodes + {x};
      Repr := Repr + {x, x.values, x.children};
    }

    method RaiseRoot(x: BNode)
      requires Linked() && root != null && root.leaf && root.maxCount == nodeValues && Blank(x) && x.parent == root.parent
      requires x.rightmost == x.parent
      modifies Repr, x, x.children
      ensures Linked() && old(root) != null && Raised(old(root), x) && root == x && x.size == old(x.size)
      ensures Repr == old(Repr) + {x, x.values, x.children}
    {
      hide Linked, Raised, Blank;
      LeafRootAlone();
      NodeAt(root);
      OwnsNodes(root, root, root);
      var o := root;
      RaiseStep(x, o);
      RaisedLinked(o, x);
    }

    // An internal root moves its contents into a new node below it.

    twostate predicate Deepened(new o: BNode, new x: BNode)
      reads *
    {
      && DeepenedAt(o, x) && OthersSame({o}) && LinksSame(x.kids)
      && (forall c :: c in x.kids ==> c.parent == x) && forall c :: c in old(nodes) ==> c.position == old(c.position)
    }

    twostate predicate DeepenedAt(new o: BNode, new x: BNode)
      reads *
    {
      && o in old(nodes) && root == o && old(root) == o && x !in old(nodes) && x != o && !x.leaf && !o.leaf
        && x.maxCount == nodeValues
      && nodes == old(nodes) + {x} && content == old(content) && home == HomeMerged(old(home), x)
      && x.values !in old(Repr) && x.children !in old(Repr) && Repr == old(Repr) + {x, x.values, x.children}
      && x.vals == old(o.vals) && x.kids == old(o.kids) && x.lo == Open && x.hi == Open && x.height == old(o.height)
      && o.vals == [] && o.kids == [x] && o.lo == old(o.lo) && o.hi == old(o.hi) && o.height == x.height + 1
      && x.parent == o && x.position == 0 && o.parent == old(o.parent) && o.rightmost == old(o.rightmost)
      && x.Rep() && o.Rep()
    }

    twostate lemma DeepenedNodes(new o: BNode, new x: BNode)
      requires old(Linked()) && Deepened(o, x) && Owned() && old(o in nodes && NodeOk(o) && KidsOk(o) && Stored(o))
      requires o.maxCount == nodeValues
      requires o !in x.kids
      ensures NodeOk(o) && NodeOk(x) && KidsOk(o) && KidsOk(x) && Stored(o) && Stored(x) && Cover(o) && Cover(x)
    {
      hide Sorted, Within, KeySet, LoOf, HiOf, LinksSame;
      NoVals(o);
      OneKid(o, x);
      forall j | 0 <= j < |x.kids| ensures KidOk(x, j) {
        assert old(KidOk(o, j));
        assert x.kids[j] in x.kids && Same(x.kids[j]);
      }
      DeepenedStored(o, x);
    }

    lemma OneKid(o: BNode, x: BNode)
      requires Owned() && o in nodes && x in nodes && o.vals == [] && o.kids == [x] && x.parent == o && x.position == 0
      requires x.height + 1 == o.height && x.lo == o.lo && x.hi == o.hi
      ensures KidsOk(o)
    {
    }

    twostate lemma DeepenedStored(new o: BNode, new x: BNode)
      requires Deepened(o, x) && Owned() && old(Owned() && o in nodes && Stored(o))
      ensures Stored(x)
    {
      hide Sorted, Within, LoOf, HiOf, OthersSame, LinksSame, BNode.Rep;
      forall j | 0 <= j < |x.vals| ensures x.vals[j].key in KeySet(x.vals) {}
    }

    twostate lemma DeepenedElsewhere(new o: BNode, new x: BNode, new m: BNode)
      requires old(Owned()) && Owned() && Deepened(o, x) && m in old(nodes) && m != o && m != x
      requires old(o in nodes && Stored(o) && KidsOk(o) && NodeOk(m) && KidsOk(m) && Stored(m) && Cover(m) && UpOk(m))
      requires forall c :: c in old(m.kids) ==> c !in x.kids && c != o
      requires m !in x.kids ==> old(m.parent != o)
      ensures NodeOk(m) && KidsOk(m) && Stored(m) && Cover(m) && UpOk(m)
    {
      hide BNode.Rep, Sorted, Within, LoOf, HiOf;
      assert Same(m);
      forall j | 0 <= j < |m.kids| ensures KidOk(m, j) {
        assert old(KidOk(m, j));
        assert m.kids[j] in m.kids && SameLink(m.kids[j]) && Same(m.kids[j]);
      }
      forall j | 0 <= j < |m.vals| ensures m.vals[j].key !in KeySet(x.vals) {
        if m.vals[j].key in KeySet(x.vals) { StoredKey(old(home), old(content), o, x.vals, m.vals[j].key); }
      }
      if m in x.kids {
        var j :| 0 <= j < |x.kids| && x.kids[j] == m;
        assert old(KidOk(o, j)) && m.position == old(m.position);
      } else {
        assert SameLink(m);
        if m.parent != o && m.parent != null && m.parent in old(nodes) { assert Same(m.parent); }
      }
    }

    /** The root is nobody's child, and its children are nobody else's. */
    ghost predicate RootKin(o: BNode)
      reads `nodes, nodes, o
    {
      && o !in o.kids
      && (forall m, c :: m in nodes && m != o && c in m.kids ==> c != o && c !in o.kids)
      && (forall m :: m in nodes && m != o && m !in o.kids ==> m.parent != o)
    }

    lemma RootKinOk()
      requires Linked() && root != null
      ensures root in nodes && RootKin(root)
    {
      hide Linked;
      RootBounds();
      forall m, c | m in nodes && c in m.kids ensures c.parent == m && c != root { KidParent(m, c); }
      assert forall c :: c in root.kids ==> c.parent == root;
      forall m | m in nodes && m != root && m.parent == root ensures m in root.kids { ParentKid(m); }
    }

    twostate lemma DeepenedRoot(new o: BNode, new x: BNode)
      requires old(Linked()) && Deepened(o, x) && o !in x.kids
      ensures Owned() && RootOk()
    {
      hide BNode.Rep, Sorted, Within, KeySet, LoOf, HiOf, NodeOk, KidsOk, Stored, Cover, UpOk;
      assert home.Keys == old(home).Keys;
    }

    twostate lemma DeepenedLinked(new o: BNode, new x: BNode)
      requires old(Linked()) && Deepened(o, x) && root != null && old(o in nodes && RootKin(o)) && o.maxCount == nodeValues
      ensures Linked()
    {
      hide BNode.Rep, Sorted, Within, KeySet, LoOf, HiOf, LinksSame, OthersSame, NodeOk, KidsOk, Stored, Cover, UpOk, HomeMerged;
      DeepenedRoot(o, x);
      assert old(NodeOk(o) && KidsOk(o) && Stored(o));
      DeepenedNodes(o, x);
      RootUp(o);
      DeepenedUp(o, x);
      forall m | m in nodes ensures NodeOk(m) && KidsOk(m) && UpOk(m) && Stored(m) && Cover(m) {
        if m != o && m != x {
          assert old(NodeOk(m) && KidsOk(m) && UpOk(m) && Stored(m) && Cover(m));
          forall c | c in old(m.kids) ensures c !in x.kids && c != o {
          }
          DeepenedElsewhere(o, x, m);
        }
      }
    }

    twostate lemma DeepenedUp(new o: BNode, new x: BNode)
      requires Deepened(o, x) && Owned()
      ensures UpOk(x)
    {
      hide BNode.Rep, LinksSame, OthersSame, HomeMerged;
    }

    method DeepenCore(o: BNode, x: BNode)
      requires root == o && o in nodes && Blank(x) && o.Rep() && !o.leaf && o.maxCount == nodeValues && o !in o.kids
        && x !in o.kids
      requires o != x && o.values != x.values && o.children != x.children
      modifies `home, `nodes, `Repr, o`count, o`vals, o`kids, o`height, o.values, o.children
      modifies x`parent, x`position, x`count, x`vals, x`kids, x`lo, x`hi, x`height, x.values, x.children,
        (set k | k in o.kids)`parent
      ensures DeepenedAt(o, x) && forall c :: c in x.kids ==> c.parent == x
    {
      hide BNode.ValsRep;
      x.SetChild(0, x);
      x.kids := [x];
      BlankRep(x);
      x.SwapInternal(o);
      BookDeepen(o, x);
    }

    method DeepenStep(o: BNode, x: BNode)
      requires Owned() && root == o && o in nodes && Blank(x) && o.Rep() && !o.leaf && o.maxCount == nodeValues && o !in o.kids
      requires x !in o.kids
      modifies `home, `nodes, `Repr, o`count, o`vals, o`kids, o`height, o.values, o.children
      modifies x`parent, x`position, x`count, x`vals, x`kids, x`lo, x`hi, x`height, x.values, x.children,
        (set k | k in o.kids)`parent
      ensures Deepened(o, x) && Repr == old(Repr) + {x, x.values, x.children} && o.size == old(o.size)
    {
      hide BNode.ValsRep, BNode.Rep;
      DeepenCore(o, x);
    }

    ghost method BookDeepen(o: BNode, x: BNode)
      requires o != x
      modifies `home, `nodes, `Repr, o`height, x`lo, x`hi, x`height
      ensures x.lo == Open && x.hi == Open && x.height == old(o.height) && o.height == x.height + 1
      ensures nodes == old(nodes) + {x} && Repr == old(Repr) + {x, x.values, x.children} && home == HomeMerged(old(home), x)
    {
      x.lo, x.hi, x.height := Open, Open, o.height;
      o.height := o.height + 1;
      home := HomeMerged(home, x);
      nodes := nodes + {x};
      Repr := Repr + {x, x.values, x.children};
    }

    static lemma BlankRep(x: BNode)
      requires x.ValsRep() && x.vals == [] && !x.leaf && x.children.Length == x.maxCount + 1 && x.kids == [x]
        && x.children[0] == x
      ensures x.Rep()
    {
      assert x.children[..1] == [x];
    }

    /** The internal root moves its contents into the new node x below it. */
    method DeepenRoot(x: BNode)
      requires Linked() && root != null && !root.leaf && Blank(x)
      modifies Repr, x, x.values, x.children
      ensures Linked() && root == old(root) && root != null && Deepened(root, x) && root.size == old(root.size)
      ensures Repr == old(Repr) + {x, x.values, x.children}
    {
      hide Linked, Deepened, RootKin;
      RootBounds();
      NodeAt(root);
      RootKinOk();
      NotKid(x, root);
      RootNotOwn();
      OwnsNodes(root, root, root);
      DeepenStep(root, x);
      DeepenedLinked(root, x);
    }

    lemma RootNotOwn()
      requires root != null && RootKin(root)
      ensures root !in root.kids
    {
    }

    // An empty internal root goes, or takes over its only child.

    lemma LoneChild()
      requires Linked() && root != null && !root.leaf && root.vals == []
      ensures |root.kids| == 1 && root.kids[0] in nodes && root.kids[0] != root && root.kids == [root.kids[0]]
      ensures root.kids[0].parent == root && root.kids[0].lo == Open && root.kids[0].hi == Open
        && root.kids[0].height + 1 == root.height
    {
      hide Linked, Sorted, Within;
      RootBounds();
      NodeAt(root);
      KidsLeaf(root);
      assert KidOk(root, 0);
      assert root.kids[0] in root.kids;
      KidParent(root, root.kids[0]);
    }

    lemma TwoNodes()
      requires Linked() && root != null && !root.leaf && root.vals == [] && |root.kids| == 1 && root.kids[0].leaf
      ensures nodes == {root, root.kids[0]} && root.parent == root.kids[0]
    {
      hide Linked;
      RootBounds();
      LoneChild();
      var c := root.kids[0];
      NodeAt(c);
      forall m | m in nodes ensures m == root || m == c {
        TopHeight(m);
        if m.height == root.height {
          OnlyRootAtTop(m);
        } else if m != root {
          ParentKid(m);
          KidParent(m.parent, m);
          OnlyRootAtTop(m.parent);
        }
      }
    }

    /** try_shrink when the child is a leaf: it becomes the root. */
    method LowerToLeaf()
      requires Linked() && root != null && !root.leaf && root.vals == [] && |root.kids| == 1 && root.kids[0].leaf
      modifies Repr, `root, `nodes
      ensures Linked() && root != null && root.leaf && old(root) != null && |old(root.kids)| == 1 && root == old(root.kids)[0]
      ensures nodes == {root}
      ensures root.vals == old(root.kids[0].vals) && root.lo == old(root.kids[0].lo) && root.hi == old(root.kids[0].hi)
      ensures content == old(content) && Repr == old(Repr)
    {
      hide Linked, BNode.Rep;
      LoneChild();
      TwoNodes();
      RootBounds();
      NodeAt(root);
      NodeAt(root.kids[0]);
      OwnsNodes(root, root.kids[0], root.kids[0]);
      FirstKid(root);
      var child: BNode := root.children[0];
      child.parent := child.parent.parent;
      root := child;
      nodes := {child};
      LoneLeafLinked();
    }

    static lemma FirstKid(n: BNode)
      requires n.Rep() && |n.kids| >= 1
      ensures n.children.Length > 0 && n.children[0] == n.kids[0]
    {
    }

    lemma LoneLeafLinked()
      requires Owned() && root != null && nodes == {root} && root.leaf && root.parent == root && root.lo == Open
        && root.hi == Open
      requires NodeOk(root) && Stored(root) && Cover(root) && home.Keys == content.Keys && nodeValues >= 3
      ensures Linked()
    {
      hide Sorted, Within, KeySet, BNode.ValsRep;
    }

    /** The empty root o has taken over the contents of its only child c, which is gone. */
    twostate predicate LoweredAt(new o: BNode, new c: BNode)
      reads *
    {
      && o in old(nodes) && c in old(nodes) && root == o && old(root) == o && c != o && !o.leaf && !c.leaf
      && nodes == old(nodes) - {c} && content == old(content) && home == HomeMerged(old(home), o) && Repr == old(Repr)
      && old(o.vals) == [] && old(o.kids) == [c] && o.vals == old(c.vals) && o.kids == old(c.kids) && o.height == old(c.height)
      && o.lo == old(o.lo) && o.hi == old(o.hi) && o.parent == old(o.parent) && o.rightmost == old(o.rightmost) && o.Rep()
    }

    twostate predicate Lowered(new o: BNode, new c: BNode)
      reads *
    {
      && LoweredAt(o, c) && OthersSame({o, c}) && LinksSame(o.kids + [c])
      && (forall k :: k in o.kids ==> k.parent == o) && forall k :: k in old(nodes) ==> k.position == old(k.position)
    }

    twostate lemma LoweredRoot(new o: BNode, new c: BNode)
      requires old(Linked()) && Lowered(o, c) && o !in o.kids
      ensures Owned() && RootOk()
    {
      hide BNode.Rep, Sorted, Within, KeySet, LoOf, HiOf, NodeOk, KidsOk, Stored, Cover, UpOk;
      assert home.Keys == old(home).Keys;
    }

    twostate lemma LoweredTop(new o: BNode, new c: BNode)
      requires Lowered(o, c) && Owned() && old(Owned() && o in nodes && c in nodes && NodeOk(o) && NodeOk(c) && KidsOk(c)
        && Stored(c))
      requires o !in o.kids && c !in o.kids && old(c.lo == o.lo && c.hi == o.hi)
      ensures NodeOk(o) && KidsOk(o) && Stored(o) && Cover(o) && UpOk(o)
    {
      hide Sorted, Within, LoOf, HiOf, LinksSame;
      forall j | 0 <= j < |o.kids| ensures KidOk(o, j) {
        assert old(KidOk(c, j));
        assert o.kids[j] in o.kids && Same(o.kids[j]);
      }
      forall j | 0 <= j < |o.vals| ensures o.vals[j].key in KeySet(o.vals) {}
    }

    twostate lemma LoweredElsewhere(new o: BNode, new c: BNode, new m: BNode)
      requires Lowered(o, c) && Owned() && m in old(nodes) && m != o && m != c
      requires old(Owned() && o in nodes && c in nodes && Stored(c) && KidsOk(c) && NodeOk(m) && KidsOk(m) && Stored(m)
        && Cover(m) && UpOk(m))
      requires forall k :: k in old(m.kids) ==> k !in o.kids && k != o && k != c
      requires m !in o.kids ==> old(m.parent != c && m.parent != o)
      ensures NodeOk(m) && KidsOk(m) && Stored(m) && Cover(m) && UpOk(m)
    {
      hide BNode.Rep, Sorted, Within, LoOf, HiOf, KeySet;
      assert Same(m);
      forall j | 0 <= j < |m.kids| ensures KidOk(m, j) {
        assert old(KidOk(m, j));
        assert m.kids[j] in m.kids && SameLink(m.kids[j]) && Same(m.kids[j]);
      }
      forall j | 0 <= j < |m.vals| ensures m.vals[j].key !in KeySet(o.vals) {
        if m.vals[j].key in KeySet(o.vals) { StoredKey(old(home), old(content), c, o.vals, m.vals[j].key); }
      }
      if m in o.kids {
        var j :| 0 <= j < |o.kids| && o.kids[j] == m;
        assert old(KidOk(c, j)) && m.position == old(m.position);
      } else {
        assert SameLink(m);
        if m.parent != null && m.parent in old(nodes) && m.parent != o { assert Same(m.parent); }
      }
    }

    twostate lemma LoweredLinked(new o: BNode, new c: BNode)
      requires old(Linked()) && Lowered(o, c) && root != null
      requires old(o in nodes && c in nodes && Kin(o, c) && RootKin(o) && c.lo == o.lo && c.hi == o.hi)
      ensures Linked()
    {
      hide BNode.Rep, Sorted, Within, KeySet, LoOf, HiOf, LinksSame, OthersSame, NodeOk, KidsOk, Stored, Cover, UpOk, HomeMerged;
      LoweredRoot(o, c);
      assert old(NodeOk(o) && NodeOk(c) && KidsOk(c) && Stored(c));
      LoweredTop(o, c);
      forall m | m in nodes ensures NodeOk(m) && KidsOk(m) && UpOk(m) && Stored(m) && Cover(m) {
        if m != o {
          assert old(NodeOk(m) && KidsOk(m) && UpOk(m) && Stored(m) && Cover(m));
          forall k | k in old(m.kids) ensures k !in o.kids && k != o && k != c {
            assert k !in old(c.kids + o.kids);
          }
          LoweredElsewhere(o, c, m);
        }
      }
    }

    method LowerCore(o: BNode, c: BNode)
      requires root == o && o in nodes && c in nodes && c != o && !o.leaf && !c.leaf && o.Rep() && c.Rep() && o.vals == []
        && o.kids == [c]
      requires o.values != c.values && o.children != c.children && c !in c.kids && o !in c.kids && o.maxCount == c.maxCount
      modifies `home, `nodes, o`count, o`vals, o`kids, o`height, o.values, o.children, c`count, c`vals, c`kids, c.values,
        c.children
      modifies c`parent, (set k | k in c.kids)`parent
      ensures LoweredAt(o, c) && o.kids == old(c.kids)
      ensures forall k :: k in o.kids ==> k.parent == o
    {
      hide BNode.ValsRep, BNode.KidsRep;
      c.SwapInternal(o);
      BookLower(o, c);
    }

    ghost method BookLower(o: BNode, c: BNode)
      modifies `home, `nodes, o`height
      ensures nodes == old(nodes) - {c} && home == HomeMerged(old(home), o) && o.height == old(c.height)
    {
      o.height := c.height;
      home := HomeMerged(home, o);
      nodes := nodes - {c};
    }

    method LowerStep(o: BNode, c: BNode)
      requires Owned() && root == o && o in nodes && c in nodes && c != o && !o.leaf && !c.leaf && o.Rep() && c.Rep()
      requires o.vals == [] && o.kids == [c]
      requires c !in c.kids && o !in c.kids && o.maxCount == c.maxCount
      modifies `home, `nodes, o`count, o`vals, o`kids, o`height, o.values, o.children, c`count, c`vals, c`kids, c.values,
        c.children
      modifies c`parent, (set k | k in c.kids)`parent
      ensures Lowered(o, c) && o.size == old(o.size)
    {
      hide BNode.Rep, LoweredAt;
      LowerCore(o, c);
    }

    /** try_shrink when the child is internal: it swaps with the root. */
    method LowerRoot(c: BNode)
      requires Linked() && root != null && !root.leaf && root.vals == [] && root.kids == [c] && !c.leaf
      modifies Repr
      ensures Linked() && root == old(root) && root != null && Lowered(root, c) && root.size == old(root.size)
    {
      hide Linked, Lowered, RootKin, Kin;
      RootBounds();
      LoneChild();
      NodeAt(root);
      NodeAt(c);
      RootKinOk();
      KinOk(root, c);
      KinParts(root, c);
      OwnsNodes(root, c, c);
      LowerStep(root, c);
      LoweredLinked(root, c);
    }

    lemma KinParts(p: BNode, n: BNode)
      requires Kin(p, n)
      ensures n !in n.kids && p !in n.kids && p !in p.kids
    {
    }

    /** try_shrink when the root is an empty leaf. */
    method DropRoot()
      requires Linked() && root != null && root.leaf && root.vals == []
      modifies `root, `nodes, `home
      ensures Linked() && root == null && content == map[] && content == old(content) && Repr == old(Repr)
    {
      hide Linked;
      LeafRootAlone();
      RootBounds();
      OwnsNodes(root, root, root);
      NoKeys(root);
      root := null;
      nodes := {};
      home := map[];
      NothingLinked();
    }

    lemma NoKeys(n: BNode)
      requires n.vals == [] && content.Keys == KeySet(n.vals)
      ensures content == map[]
    {
    }

    lemma NothingLinked()
      requires this in Repr && nodes == {} && root == null && content == map[] && home == map[] && nodeValues >= 3
      ensures Linked()
    {
    }

    constructor (nodeValues: nat)
      requires nodeValues >= 3
      ensures Linked() && root == null && content == map[] && fresh(Repr) && this.nodeValues == nodeValues
    {
      this.nodeValues, root := nodeValues, null;
      nodes, home, content, Repr := {}, map[], map[], {this};
    }

    /** new_leaf_root_node on the empty tree. */
    method FirstRoot(x: BNode)
      requires Linked() && root == null && x.leaf && 1 <= x.maxCount <= nodeValues && x.Rep() && x.vals == []
      modifies `root, `nodes, `Repr, x`parent, x`lo, x`hi, x`height
      ensures Linked() && root == x && nodes == {x} && content == old(content) == map[]
        && Repr == old(Repr) + {x, x.values, x.children}
      ensures x.lo == Open && x.hi == Open && x.vals == []
    {
      hide Linked, BNode.Rep;
      EmptyTree();
      x.parent, x.lo, x.hi, x.height := x, Open, Open, 0;
      root := x;
      nodes := {x};
      Repr := Repr + {x, x.values, x.children};
      NoVals(x);
      LeafRootOk(x);
      LoneLeafLinked();
    }

    lemma EmptyTree()
      requires Linked() && root == null
      ensures nodes == {} && content == map[] && home == map[] && nodeValues >= 3 && this in Repr
    {
      hide NodeOk, KidsOk, Stored, Cover, UpOk;
    }

    lemma LeafRootOk(x: BNode)
      requires Owned() && root == x && nodes == {x} && x.leaf && 1 <= x.maxCount <= nodeValues && x.Rep() && x.height == 0
      requires Sorted(x.vals) && Within(x.vals, x.lo, x.hi) && content.Keys == KeySet(x.vals) && home.Keys == content.Keys
      requires forall i :: 0 <= i < |x.vals| ==> x.vals[i].key in content && content[x.vals[i].key] == x.vals[i].data
      requires forall k :: k in home ==> home[k] == x
      ensures NodeOk(x) && Stored(x) && Cover(x)
    {
    }

    /** The root leaf, full and smaller than a full node, moves into the larger leaf x. */
    method RegrowRoot(x: BNode)
      requires Linked() && root != null && root.leaf && x.leaf && |root.vals| <= x.maxCount <= nodeValues && 1 <= x.maxCount
      requires x.Rep() && x.vals == []
      requires root.maxCount <= x.maxCount && x !in nodes && x !in Repr && x.values !in Repr && x.children !in Repr
      modifies Repr, `root, `nodes, `Repr, `home, x, x.values
      ensures Linked() && root == x && nodes == {x} && content == old(content) && old(root) != null && x.vals == old(root.vals)
      ensures x.lo == Open && x.hi == Open && Repr == old(Repr) + {x, x.values, x.children}
    {
      hide Linked, BNode.Rep, Sorted, Within, KeySet;
      LeafRootAlone();
      RootBounds();
      NodeAt(root);
      OwnsNodes(root, root, root);
      StoredHere(root);
      var o := root;
      LeafCount(x);
      LeafCount(o);
      RegrowStep(o, x);
      LeafRootOk(x);
      LoneLeafLinked();
    }

    method RegrowStep(o: BNode, x: BNode)
      requires x != o && x.values != o.values && x.leaf && o.leaf && x.Rep() && o.Rep() && o.count <= x.maxCount
        && x.count <= o.maxCount
      requires this in Repr
      modifies `root, `nodes, `Repr, `home, x`count, x`vals, x`parent, x`lo, x`hi, x`height, x.values, o`count, o`vals, o.values
      ensures x.Rep() && x.vals == old(o.vals) && x.parent == x && x.lo == Open && x.hi == Open && x.height == 0 && root == x
      ensures nodes == {x}
      ensures home == (map k | k in content :: x) && Repr == old(Repr) + {x, x.values, x.children}
    {
      hide BNode.Rep;
      x.SwapLeaf(o);
      x.parent := x;
      root := x;
      BookRegrow(x);
    }

    ghost method BookRegrow(x: BNode)
      modifies `nodes, `Repr, `home, x`lo, x`hi, x`height
      ensures x.lo == Open && x.hi == Open && x.height == 0 && nodes == {x}
      ensures home == (map k | k in content :: x) && Repr == old(Repr) + {x, x.values, x.children}
    {
      x.lo, x.hi, x.height := Open, Open, 0;
      nodes := {x};
      home := map k | k in content :: x;
      Repr := Repr + {x, x.values, x.children};
    }

    lemma StoredHere(n: BNode)
      requires Owned() && Stored(n) && NodeOk(n)
      ensures forall i :: 0 <= i < |n.vals| ==> n.vals[i].key in content && content[n.vals[i].key] == n.vals[i].data
      ensures Sorted(n.vals) && Within(n.vals, n.lo, n.hi)
    {
    }

    // ---- A key of an inner node gives way to its predecessor ----

    /** The last value of the leaf l has replaced the value i of p, whose key was k. */
    twostate predicate ReplacedAt(new p: BNode, new i: nat, new l: BNode, new k: Key, new e: Entry)
      reads *
    {
      && p in old(nodes) && l in old(nodes) && p != l && l.leaf && nodes == old(nodes) && root == old(root) && Repr == old(Repr)
      && content == old(content) - {k} && home == (old(home) - {k})[e.key := p]
      && i < |old(p.vals)| && old(p.vals)[i].key == k && p.vals == old(p.vals)[i := e]
      && old(l.vals) == l.vals + [e] && p.Rep() && l.Rep() && p.kids == old(p.kids) && l.kids == old(l.kids)
      && (root != null ==> root.rightmost == old(root.rightmost))
    }

    twostate predicate ReplacedEvery(new p: BNode, new l: BNode, new k: Key, new k1: Key)
      reads *
    {
      && (forall m :: m in old(nodes) ==>
            m.lo == Shifted(old(m.lo), k, k1) && m.hi == Shifted(old(m.hi), k, k1) && m.height == old(m.height)
              && m.kids == old(m.kids) && SameLink(m))
      && (forall m :: m in old(nodes) && m != p && m != l ==> m.vals == old(m.vals) && (old(m.Rep()) ==> m.Rep()))
    }

    twostate predicate Replaced(new p: BNode, new i: nat, new l: BNode, new k: Key, new e: Entry)
      reads *
    {
      ReplacedAt(p, i, l, k, e) && ReplacedEvery(p, l, k, e.key)
    }

    /** k1 is the key of the leaf l just before k, where l ends. */
    ghost predicate Predecessor(l: BNode, k: Key, k1: Key)
      reads `content
    {
      k1 < k && k1 in content && forall x :: x in content && k1 < x ==> k <= x
    }

    lemma PredecessorOk(l: BNode, k: Key)
      requires Owned() && NodeOk(l) && Stored(l) && Cover(l) && l.leaf && l.hi == At(k) && |l.vals| >= 1
      ensures Predecessor(l, k, l.vals[|l.vals| - 1].key)
    {
      hide BNode.Rep;
      var k1 := l.vals[|l.vals| - 1].key;
      forall x | x in content && k1 < x ensures k <= x {
        if x < k {
          assert x in KeySet(l.vals);
          LastKey(l.vals, x);
        }
      }
    }

    twostate lemma ReplacedNode(new p: BNode, new i: nat, new l: BNode, new k: Key, new e: Entry, new m: BNode)
      requires Replaced(p, i, l, k, e) && Owned() && m in old(nodes) && m != p
      requires old(Owned() && m in nodes && l in nodes && p in nodes && NodeOk(m) && Stored(m) && Stored(l) && Stored(p)
        && Predecessor(l, k, e.key))
      ensures NodeOk(m)
    {
      hide BNode.Rep, KeySet;
      if m == l {
        forall j | 0 <= j < |l.vals| ensures l.vals[j] == old(l.vals)[j] && l.vals[j].key < e.key {
          assert old(l.vals)[|l.vals|] == e;
        }
      } else {
        assert m.vals == old(m.vals);
        assert old(l.vals)[|l.vals|] == e;
        forall j | 0 <= j < |m.vals| ensures m.vals[j].key != e.key && m.vals[j].key in old(content) {
        }
      }
    }

    twostate lemma ReplacedParent(new p: BNode, new i: nat, new l: BNode, new k: Key, new e: Entry)
      requires Replaced(p, i, l, k, e) && Owned() && old(Owned() && p in nodes && NodeOk(p) && KidOk(p, i)
        && Spans(p.kids[i], e.key))
      ensures NodeOk(p)
    {
      hide BNode.Rep, LoOf, HiOf;
      BetweenValues(old(p.vals), i, e, old(p.lo), old(p.hi));
      SortedUpdate(old(p.vals), i, e, old(p.lo), old(p.hi));
      assert p.lo == old(p.lo) && p.hi == old(p.hi) by {
        assert old(p.vals)[i].key == k;
      }
    }

    twostate lemma ReplacedKids(new p: BNode, new i: nat, new l: BNode, new k: Key, new e: Entry, new m: BNode)
      requires Replaced(p, i, l, k, e) && Owned() && m in old(nodes)
      requires old(Owned() && m in nodes && l in nodes && p in nodes && NodeOk(m) && KidsOk(m) && Stored(m) && Stored(p)
        && NodeOk(l))
      ensures KidsOk(m)
    {
      hide BNode.Rep, KeySet, Within;
      if m != l {
        forall j | 0 <= j < |m.kids| ensures KidOk(m, j) {
          assert old(KidOk(m, j));
          if m != p {
            assert forall x :: 0 <= x < |m.vals| ==> old(m.vals)[x].key != k;
          } else {
            assert forall x :: 0 <= x < |m.vals| && x != i ==> old(m.vals)[x].key != k;
          }
        }
      } else {
        NoKids(l);
      }
    }

    lemma NoKids(l: BNode)
      requires Owned() && l in nodes && l.leaf && l.Rep()
      ensures KidsOk(l)
    {
    }

    twostate lemma ReplacedStored(new p: BNode, new i: nat, new l: BNode, new k: Key, new e: Entry, new m: BNode)
      requires Replaced(p, i, l, k, e) && Owned() && m in old(nodes)
      requires old(Owned() && m in nodes && l in nodes && p in nodes && Stored(m) && Stored(p) && Stored(l)
        && Sorted(p.vals) && Sorted(l.vals))
      ensures Stored(m)
    {
      hide BNode.Rep, KeySet, Within;
      assert old(l.vals)[|l.vals|] == e;
      assert old(p.vals)[i].key == k && old(home)[k] == p && old(home)[e.key] == l;
      if m == p {
        forall j | 0 <= j < |p.vals| && j != i ensures p.vals[j] == old(p.vals)[j] && p.vals[j].key != k
          && p.vals[j].key != e.key {}
      } else if m == l {
        forall j | 0 <= j < |l.vals| ensures l.vals[j] == old(l.vals)[j] && l.vals[j].key != e.key && l.vals[j].key != k {}
      } else {
        forall j | 0 <= j < |m.vals| ensures m.vals[j] == old(m.vals)[j] && m.vals[j].key != e.key && m.vals[j].key != k {}
      }
    }

    twostate lemma ReplacedCover(new p: BNode, new i: nat, new l: BNode, new k: Key, new e: Entry, new m: BNode)
      requires Replaced(p, i, l, k, e) && Owned() && m in old(nodes) && (m == p ==> !m.leaf)
      requires old(Owned() && m in nodes && l in nodes && p in nodes && Cover(m) && Predecessor(l, k, e.key) && l.hi == At(k))
      ensures Cover(m)
    {
      hide BNode.Rep, KeySet, Within;
      if m == l { KeySetConcat(l.vals, [e]); KeySetOne(e); }
    }

    twostate lemma ReplacedUp(new p: BNode, new i: nat, new l: BNode, new k: Key, new e: Entry, new m: BNode)
      requires Replaced(p, i, l, k, e) && Owned() && m in old(nodes) && old(Owned() && m in nodes && UpOk(m))
      ensures UpOk(m)
    {
      hide BNode.Rep;
      assert SameLink(m);
    }

    twostate lemma ReplacedLinked(new p: BNode, new i: nat, new l: BNode, new k: Key, new e: Entry)
      requires old(Linked()) && Replaced(p, i, l, k, e) && root != null
      requires old(p in nodes && l in nodes && KidOk(p, i) && Spans(p.kids[i], e.key) && Predecessor(l, k, e.key)
        && l.hi == At(k) && !p.leaf)
      ensures Linked()
    {
      hide BNode.Rep, Sorted, Within, KeySet, LoOf, HiOf, Stored, Cover, UpOk, ReplacedEvery, KidOk, Spans, Predecessor;
      ReplacedRoot(p, i, l, k, e);
      forall m | m in nodes ensures NodeOk(m) && KidsOk(m) && UpOk(m) && Stored(m) && Cover(m) {
        assert old(NodeOk(m) && KidsOk(m) && UpOk(m) && Stored(m) && Cover(m) && NodeOk(p) && NodeOk(l) && Stored(p)
          && Stored(l));
        if m == p { ReplacedParent(p, i, l, k, e); } else { ReplacedNode(p, i, l, k, e, m); }
        ReplacedKids(p, i, l, k, e, m);
        ReplacedStored(p, i, l, k, e, m);
        ReplacedCover(p, i, l, k, e, m);
        ReplacedUp(p, i, l, k, e, m);
      }
    }

    twostate lemma ReplacedRoot(new p: BNode, new i: nat, new l: BNode, new k: Key, new e: Entry)
      requires old(Linked()) && Replaced(p, i, l, k, e) && root != null && old(p in nodes && l in nodes
        && Predecessor(l, k, e.key))
      ensures Owned() && RootOk()
    {
      hide BNode.Rep, Sorted, Within, KeySet, LoOf, HiOf, Stored, Cover, UpOk, NodeOk, KidsOk;
      assert SameLink(root);
    }

    /** value_swap of the value i of p with the last of the leaf l, and remove_value on l. */
    method ReplaceStep(p: BNode, i: nat, l: BNode)
      requires Owned() && p in nodes && l in nodes && p != l && l.leaf && p.Rep() && l.Rep() && i < |p.vals| && |l.vals| >= 1
      modifies `home, `content, p`vals, p.values, l`count, l`vals, l.values, nodes`lo, nodes`hi
      ensures i < |old(p.vals)| && |old(l.vals)| >= 1
      ensures Replaced(p, i, l, old(p.vals)[i].key, old(l.vals)[|old(l.vals)| - 1])
    {
      hide BNode.Rep, ReplacedAt, Shifted;
      ReplaceCore(p, i, l);
    }

    method ReplaceCore(p: BNode, i: nat, l: BNode)
      requires p in nodes && l in nodes && p != l && p.values != l.values && l.leaf && p.Rep() && l.Rep() && i < |p.vals|
        && |l.vals| >= 1
      modifies `home, `content, p`vals, p.values, l`count, l`vals, l.values, nodes`lo, nodes`hi
      ensures i < |old(p.vals)| && |old(l.vals)| >= 1
      ensures ReplacedAt(p, i, l, old(p.vals)[i].key, old(l.vals)[|old(l.vals)| - 1])
      ensures forall m :: m in nodes ==>
        m.lo == Shifted(old(m.lo), old(p.vals)[i].key, old(l.vals)[|old(l.vals)| - 1].key)
        && m.hi == Shifted(old(m.hi), old(p.vals)[i].key, old(l.vals)[|old(l.vals)| - 1].key)
    {
      hide BNode.Rep, Shifted;
      ghost var k, e := p.vals[i].key, l.vals[|l.vals| - 1];
      SwapOut(p, i, l);
      BookReplace(p, k, e.key);
    }

    ghost method BookReplace(p: BNode, k: Key, k1: Key)
      modifies `home, `content, nodes`lo, nodes`hi
      ensures content == old(content) - {k} && home == (old(home) - {k})[k1 := p]
      ensures forall m :: m in nodes ==> m.lo == Shifted(old(m.lo), k, k1) && m.hi == Shifted(old(m.hi), k, k1)
    {
      content := content - {k};
      home := (home - {k})[k1 := p];
      forall m | m in nodes {
        m.lo := Shifted(m.lo, k, k1);
      }
      forall m | m in nodes {
        m.hi := Shifted(m.hi, k, k1);
      }
    }

    method SwapOut(p: BNode, i: nat, l: BNode)
      requires p != l && p.values != l.values && l.leaf && p.Rep() && l.Rep() && i < |p.vals| && |l.vals| >= 1
      modifies p`vals, p.values, l`count, l`vals, l.values
      ensures p.Rep() && l.Rep() && i < |old(p.vals)| && |old(l.vals)| >= 1
      ensures p.vals == old(p.vals)[i := old(l.vals)[|old(l.vals)| - 1]]
        && old(l.vals) == l.vals + [old(l.vals)[|old(l.vals)| - 1]]
    {
      hide BNode.KidsRep;
      var j := l.count - 1;
      l.values[j], p.values[i] := p.values[i], l.values[j];
      p.vals := p.vals[i := l.vals[j]];
      l.vals := l.vals[j := l.values[j]];
      l.RemoveValue(j);
    }

    // ---- Iterators ----

    /** it points at the value with the key k. */
    ghost predicate Points(it: Iter, k: Key)
      reads `nodes, it.node
    {
      it.node != null && it.node in nodes && 0 <= it.position < |it.node.vals| && it.node.vals[it.position].key == k
    }

    /** it is one past the last value of the last leaf. */
    ghost predicate IsEnd(it: Iter)
      reads `nodes, it.node
    {
      it.node != null && it.node in nodes && it.node.leaf && it.node.hi == Open && it.position == |it.node.vals|
    }

    /** x is the least key above k. */
    ghost predicate NextKey(k: Key, x: Key)
      reads `content
    {
      x in content && k < x && forall y :: y in content && k < y ==> x <= y
    }

    /** x is the greatest key below k. */
    ghost predicate PrevKey(k: Key, x: Key)
      reads `content
    {
      x in content && x < k && forall y :: y in content && y < k ==> y <= x
    }

    /** Position pos of the leaf n parts the keys below k, or for upper those not above k, from the others. */
    ghost predicate Place(n: BNode, pos: int, k: Key, upper: bool)
      reads `nodes, n
    {
      && n in nodes && n.leaf && 0 <= pos <= |n.vals|
      && (n.lo.At? ==> BNode.Before(n.lo.key, k, upper)) && (n.hi.At? ==> !BNode.Before(n.hi.key, k, upper))
      && forall i :: 0 <= i < |n.vals| ==> (BNode.Before(n.vals[i].key, k, upper) <==> i < pos)
    }

    /** Where the key g is or would be. */
    ghost predicate Gap(n: BNode, pos: int, g: Key)
      reads `nodes, n
    {
      Place(n, pos, g, false)
    }

    /** is_root: the parent of the root is a leaf, and of no other node. */
    lemma IsRoot(n: BNode)
      requires Linked() && n in nodes
      ensures n.parent != null && (n.parent.leaf <==> n == root)
    {
      hide Linked;
      if n == root {
        RootBounds();
      } else {
        ParentKid(n);
        KidParent(n.parent, n);
      }
    }

    /** The loop of increment_slow and internal_last: climbs from the end of a node to the key that bounds it. */
    lemma ClimbRight(n: BNode)
      requires Linked() && n in nodes && n != root
      ensures n.parent != null && n.parent in nodes && n.position <= |n.parent.vals| && n.height < n.parent.height
      ensures n.hi == HiOf(n.parent.vals, n.parent.hi, n.position) && n.parent.count == |n.parent.vals|
      ensures n.lo == LoOf(n.parent.vals, n.parent.lo, n.position)
    {
      hide Linked, BNode.Rep, Sorted, Within;
      ParentKid(n);
      NodeAt(n.parent);
      KidParent(n.parent, n);
      assert KidOk(n.parent, n.position);
    }

    /** After the last key of a leaf comes its upper bound. */
    lemma LeafThenBound(n: BNode, k: Key)
      requires Linked() && n in nodes && n.leaf && |n.vals| >= 1 && n.vals[|n.vals| - 1].key == k
      ensures n.hi.At? && n.hi.key in content ==> NextKey(k, n.hi.key)
      ensures n.hi == Open ==> forall y :: y in content ==> y <= k
    {
      hide Linked, BNode.Rep;
      NodeAt(n);
      forall y | y in content && k < y && Under(y, n.hi) ensures false {
        assert Above(n.lo, y);
        LastKey(n.vals, y);
      }
    }

    /** increment_slow on a leaf: the value that bounds it, or nothing further. */
    method NextAfterLeaf(it: Iter) returns (r: Iter)
      requires Linked() && it.node != null && it.node in nodes && it.node.leaf && it.position == it.node.count
      ensures if it.node.hi == Open then r == it else Points(r, it.node.hi.key)
      ensures it.node.hi.At? ==> it.node.hi.key in content
    {
      hide Linked, BNode.Rep;
      var node: BNode := it.node;
      var position := it.position;
      NodeAt(node);
      IsRoot(node);
      RootIn(node);
      while position == node.count && !node.parent.leaf
        invariant node in nodes && 0 <= position <= |node.vals| && node.count == |node.vals|
        invariant it.node.hi == HiOf(node.vals, node.hi, position) && node.parent != null && (node.parent.leaf <==> node == root)
        decreases root.height - node.height
      {
        ClimbRight(node);
        TopHeight(node.parent);
        position := node.position;
        node := node.parent;
        IsRoot(node);
      }
      NodeAt(node);
      if position == node.count {
        RootBounds();
        return it;
      }
      return Iter(node, position);
    }

    /** child(j) */
    method ChildAt(n: BNode, j: nat) returns (c: BNode)
      requires Linked() && n in nodes && !n.leaf && j <= |n.vals|
      ensures j < |n.kids| && c == n.kids[j] && c in nodes && c.height < n.height && c != root
      ensures c.lo == LoOf(n.vals, n.lo, j) && c.hi == HiOf(n.vals, n.hi, j)
      ensures c.leaf <==> c.height == 0
    {
      hide Linked, Sorted, Within, BNode.ValsRep;
      NodeAt(n);
      KidsLeaf(n);
      assert KidOk(n, j);
      assert n.kids[j] in n.kids;
      KidParent(n, n.kids[j]);
      NodeAt(n.kids[j]);
      assert n.children[j] == n.children[..|n.kids|][j];
      c := n.children[j];
    }

    lemma SlotOk(n: BNode, i: nat)
      requires n.Rep() && i < |n.vals|
      ensures i < n.values.Length && n.values[i] == n.vals[i]
    {
      assert n.values[i] == n.values[..n.count][i];
    }

    /** The first value of the leaf that starts at k is the next key. */
    lemma LeafAfterBound(n: BNode, k: Key)
      requires Linked() && n in nodes && n.leaf && n.lo == At(k) && |n.vals| >= 1
      ensures NextKey(k, n.vals[0].key)
    {
      hide Linked, BNode.Rep;
      NodeAt(n);
      forall y | y in content && k < y ensures n.vals[0].key <= y {
        if y < n.vals[0].key {
          FirstKey(n.vals, y);
        }
      }
    }

    /** The last value of the leaf that ends at k is the previous key. */
    lemma LeafBeforeBound(n: BNode, k: Key)
      requires Linked() && n in nodes && n.leaf && n.hi == At(k) && |n.vals| >= 1
      ensures PrevKey(k, n.vals[|n.vals| - 1].key)
    {
      hide Linked, BNode.Rep;
      NodeAt(n);
      forall y | y in content && y < k ensures y <= n.vals[|n.vals| - 1].key {
        if n.vals[|n.vals| - 1].key < y {
          NotBeyond(n.vals, y);
        }
      }
    }

    /** Neighbours within a leaf are neighbours in the tree. */
    lemma LeafNeighbours(n: BNode, i: nat)
      requires Linked() && n in nodes && n.leaf && i + 1 < |n.vals|
      ensures NextKey(n.vals[i].key, n.vals[i + 1].key) && PrevKey(n.vals[i + 1].key, n.vals[i].key)
    {
      hide Linked, BNode.Rep;
      NodeAt(n);
      forall y | y in content ensures !(n.vals[i].key < y < n.vals[i + 1].key) {
        Between(n.vals, i, y);
      }
    }

    /** operator++ on a value: the next value, or the end after the last. */
    method Increment(it: Iter, ghost k: Key) returns (r: Iter)
      requires Linked() && Filled({}) && Points(it, k)
      ensures k in content
      ensures if IsEnd(r) then forall y :: y in content ==> y <= k else exists x :: NextKey(k, x) && Points(r, x)
    {
      hide Linked, BNode.Rep, NextKey;
      var node: BNode := it.node;
      NodeAt(node);
      PointsStored(it, k);
      if node.leaf {
        var position := it.position + 1;
        if position < node.count {
          LeafNeighbours(node, it.position);
          return Iter(node, position);
        }
        LeafThenBound(node, k);
        r := NextAfterLeaf(Iter(node, position));
        if node.hi.At? {
          NotAtEnd(r, node.hi.key);
        }
        return;
      }
      node := ChildAt(node, it.position + 1);
      while !node.leaf
        invariant node in nodes && node.lo == At(k) && (node.leaf <==> node.height == 0)
        decreases node.height
      {
        NodeAt(node);
        node := ChildAt(node, 0);
      }
      RootIn(node);
      LeafAfterBound(node, k);
      r := Iter(node, 0);
      NotAtEnd(r, node.vals[0].key);
    }

    lemma NotAtEnd(r: Iter, x: Key)
      requires Points(r, x)
      ensures !IsEnd(r)
    {
    }

    lemma PointsStored(it: Iter, k: Key)
      requires Linked() && Points(it, k)
      ensures k in content && home[k] == it.node
    {
      hide Linked;
      NodeAt(it.node);
      assert Stored(it.node);
      RootIn(it.node);
      RootBounds();
    }

    /** The loop of decrement_slow on a leaf: climbs from before its first value to the key that bounds it. */
    method PrevBeforeLeaf(n: BNode) returns (r: Iter)
      requires Linked() && n in nodes && n.leaf
      ensures if n.lo == Open then r == Iter(n, -1) else Points(r, n.lo.key)
      ensures n.lo.At? ==> n.lo.key in content
    {
      hide Linked, BNode.Rep;
      var node: BNode := n;
      var position: int := -1;
      NodeAt(node);
      IsRoot(node);
      RootIn(node);
      while position < 0 && !node.parent.leaf
        invariant node in nodes && -1 <= position < |node.vals|
        invariant n.lo == (if position < 0 then node.lo else At(node.vals[position].key))
        invariant node.parent != null && (node.parent.leaf <==> node == root)
        decreases root.height - node.height
      {
        ClimbRight(node);
        TopHeight(node.parent);
        position := node.position - 1;
        node := node.parent;
        IsRoot(node);
      }
      NodeAt(node);
      if position < 0 {
        RootBounds();
        return Iter(n, -1);
      }
      return Iter(node, position);
    }

    /** Before the first key of a leaf comes its lower bound. */
    lemma LeafBelowBound(n: BNode, k: Key)
      requires Linked() && n in nodes && n.leaf && |n.vals| >= 1 && n.vals[0].key == k
      ensures n.lo.At? && n.lo.key in content ==> PrevKey(k, n.lo.key)
      ensures n.lo == Open ==> forall y :: y in content ==> k <= y
    {
      hide Linked, BNode.Rep;
      NodeAt(n);
      forall y | y in content && y < k && Above(n.lo, y) ensures false {
        assert Under(y, n.hi);
        FirstKey(n.vals, y);
      }
    }

    /** operator-- on a value: the value before it; before the first value, the position before the first of its leaf. */
    method Decrement(it: Iter, ghost k: Key) returns (r: Iter)
      requires Linked() && Filled({}) && Points(it, k)
      ensures k in content
      ensures (exists x :: PrevKey(k, x) && Points(r, x)) || (r == Iter(it.node, -1) && forall y :: y in content ==> k <= y)
      ensures !it.node.leaf ==> r.node != null && r.node in nodes && r.node.leaf && r.position == |r.node.vals| - 1 && r.node.hi == At(k)
      ensures !it.node.leaf ==> exists x :: PrevKey(k, x) && Points(r, x)
    {
      hide Linked, BNode.Rep, PrevKey;
      var node: BNode := it.node;
      NodeAt(node);
      PointsStored(it, k);
      if node.leaf {
        var position := it.position - 1;
        if position >= 0 {
          LeafNeighbours(node, position);
          return Iter(node, position);
        }
        LeafBelowBound(node, k);
        r := PrevBeforeLeaf(node);
        return;
      }
      node := ChildAt(node, it.position);
      while !node.leaf
        invariant node in nodes && node.hi == At(k) && (node.leaf <==> node.height == 0)
        decreases node.height
      {
        NodeAt(node);
        node := ChildAt(node, node.count);
      }
      NodeAt(node);
      RootIn(node);
      LeafBeforeBound(node, k);
      return Iter(node, node.count - 1);
    }

    /** operator-- on the end. */
    method DecrementEnd(it: Iter) returns (r: Iter)
      requires Linked() && Filled({}) && IsEnd(it)
      ensures exists x :: Points(r, x) && x in content && forall y :: y in content ==> y <= x
    {
      hide Linked, BNode.Rep;
      NodeAt(it.node);
      r := Iter(it.node, it.position - 1);
      LeafThenBound(it.node, it.node.vals[|it.node.vals| - 1].key);
      PointsStored(r, it.node.vals[|it.node.vals| - 1].key);
    }

    lemma PointsSame(a: Iter, b: Iter, k: Key)
      requires Linked() && Points(a, k) && Points(b, k)
      ensures a == b
    {
      hide Linked, BNode.Rep;
      PointsStored(a, k);
      PointsStored(b, k);
      NodeAt(a.node);
    }

    /** -- undoes ++, after the last value too. */
    method IncrementThenDecrement(it: Iter, ghost k: Key) returns (r: Iter)
      requires Linked() && Filled({}) && Points(it, k)
      ensures r == it
    {
      hide Linked, BNode.Rep, Points, IsEnd;
      PointsRoot(it, k);
      var end := End();
      var n := Increment(it, k);
      if n == end {
        r := DecrementEnd(n);
        ghost var x :| Points(r, x) && x in content && forall y :: y in content ==> y <= x;
        PointsStored(it, k);
        PointsSame(it, r, k);
        return;
      }
      if IsEnd(n) { OneEnd(n, end); }
      ghost var x :| NextKey(k, x) && Points(n, x);
      r := Decrement(n, x);
      PointsSame(it, r, k);
    }

    /** internal_locate with a node search: the place of k in a leaf. */
    method InternalLocate(k: Key, upper: bool, linear: bool) returns (it: Iter)
      requires Linked() && root != null
      ensures it.node != null && Place(it.node, it.position, k, upper)
    {
      hide Linked, BNode.Rep;
      RootBounds();
      var node: BNode := root;
      var position: nat := Search(node, k, upper, linear);
      while !node.leaf
        invariant node in nodes && position <= |node.vals|
        invariant (node.lo.At? ==> BNode.Before(node.lo.key, k, upper)) && (node.hi.At? ==> !BNode.Before(node.hi.key, k, upper))
        invariant forall i :: 0 <= i < |node.vals| ==> (BNode.Before(node.vals[i].key, k, upper) <==> i < position)
        decreases node.height
      {
        node := ChildAt(node, position);
        position := Search(node, k, upper, linear);
      }
      return Iter(node, position);
    }

    /** lower_bound or upper_bound within a node, by linear or by binary search. */
    method Search(n: BNode, k: Key, upper: bool, linear: bool) returns (s: nat)
      requires Linked() && n in nodes
      ensures s <= |n.vals|
      ensures forall i :: 0 <= i < |n.vals| ==> (BNode.Before(n.vals[i].key, k, upper) <==> i < s)
    {
      hide Linked, Within, Sorted;
      NodeAt(n);
      if linear {
        s := n.LinearSearch(k, upper);
      } else {
        s := n.BinarySearch(k, upper);
      }
    }

    /** The key it points at. */
    ghost function KeyOf(it: Iter): Key
      reads it.node
    {
      if it.node != null && 0 <= it.position < |it.node.vals| then it.node.vals[it.position].key else 0.0
    }

    /** x is the least key that is not below k, or for upper that is above k. */
    ghost predicate FirstPast(x: Key, k: Key, upper: bool)
      reads `content
    {
      x in content && !BNode.Before(x, k, upper) && forall y :: y in content && !BNode.Before(y, k, upper) ==> x <= y
    }

    /** internal_last: the value that a place stands before, or no node when there is none. */
    method InternalLast(it: Iter, ghost k: Key, ghost upper: bool) returns (r: Iter)
      requires Linked() && it.node != null && Place(it.node, it.position, k, upper)
      ensures r.node == null ==> forall y :: y in content ==> BNode.Before(y, k, upper)
      ensures r.node != null ==> exists x :: Points(r, x) && FirstPast(x, k, upper)
      ensures HiOf(it.node.vals, it.node.hi, it.position) == if r.node == null then Open else At(KeyOf(r))
    {
      hide Linked, BNode.Rep;
      PlaceAhead(it.node, it.position, k, upper);
      var node: BNode := it.node;
      var position := it.position;
      NodeAt(node);
      RootIn(node);
      while position == node.count
        invariant node in nodes && 0 <= position <= |node.vals| && node.count == |node.vals|
        invariant HiOf(it.node.vals, it.node.hi, it.position) == HiOf(node.vals, node.hi, position)
        decreases root.height - node.height
      {
        IsRoot(node);
        if node != root {
          ClimbRight(node);
          TopHeight(node.parent);
        } else {
          RootBounds();
        }
        position := node.position;
        var parent: BNode := node.parent;
        if parent.leaf {
          return Iter(null, position);
        }
        node := parent;
        NodeAt(node);
      }
      r := Iter(node, position);
      PointsStored(r, node.vals[position].key);
    }

    /** The key that a place stands before is the first past it. */
    lemma PlaceAhead(n: BNode, pos: int, k: Key, upper: bool)
      requires Linked() && Place(n, pos, k, upper)
      ensures HiOf(n.vals, n.hi, pos) == Open ==> forall y :: y in content ==> BNode.Before(y, k, upper)
      ensures HiOf(n.vals, n.hi, pos).At? ==> !BNode.Before(HiOf(n.vals, n.hi, pos).key, k, upper)
      ensures HiOf(n.vals, n.hi, pos).At? ==> forall y :: y in content && !BNode.Before(y, k, upper) ==> HiOf(n.vals, n.hi, pos).key <= y
    {
      hide Linked, BNode.Rep;
      NodeAt(n);
      forall y | y in content && !BNode.Before(y, k, upper) && Under(y, n.hi) ensures pos < |n.vals| && n.vals[pos].key <= y {
        assert Above(n.lo, y);
        KeyAt(n.vals, pos, k, upper, y);
      }
      if pos < |n.vals| {
        assert Under(n.vals[pos].key, n.hi);
      }
    }

    /** begin() */
    method Begin() returns (it: Iter)
      requires Linked() && Filled({}) && root != null
      ensures exists x :: Points(it, x) && x in content && forall y :: y in content ==> x <= y
    {
      hide Linked, BNode.Rep;
      RootBounds();
      var leftmost: BNode := root.parent;
      NodeAt(leftmost);
      it := Iter(leftmost, 0);
      LeafBelowBound(leftmost, leftmost.vals[0].key);
      PointsStored(it, leftmost.vals[0].key);
    }

    /** end() */
    method End() returns (it: Iter)
      requires Linked() && root != null
      ensures IsEnd(it)
    {
      hide Linked, BNode.Rep;
      RootBounds();
      var rightmost: BNode := root;
      if !root.leaf { rightmost := root.rightmost; }
      NodeAt(rightmost);
      return Iter(rightmost, rightmost.count);
    }

    /** lower_bound and upper_bound of the tree: the first value not below k, or above k, or end(). */
    method SearchBound(k: Key, upper: bool, linear: bool) returns (it: Iter)
      requires Linked() && Filled({})
      ensures if root == null then it == Iter(null, 0) else it.node != null
      ensures it.node != null ==>
        if IsEnd(it) then forall y :: y in content ==> (if upper then y <= k else y < k)
        else exists x :: Points(it, x) && x in content && (if upper then k < x else k <= x)
               && forall y :: y in content && (if upper then k < y else k <= y) ==> x <= y
    {
      hide Linked, BNode.Rep, Points, IsEnd, Place;
      if root == null {
        return Iter(null, 0);
      }
      it := InternalLocate(k, upper, linear);
      it := InternalLast(it, k, upper);
      if it.node == null {
        it := End();
        EndNode(it);
      } else {
        PointsNotEnd(it);
      }
    }

    lemma EndNode(it: Iter)
      requires IsEnd(it)
      ensures it.node != null
    {
    }

    lemma PointsNotEnd(it: Iter)
      requires exists x :: Points(it, x)
      ensures !IsEnd(it)
    {
    }

    /** internal_find_unique */
    method FindUnique(k: Key, linear: bool) returns (it: Iter)
      requires Linked()
      ensures if k in content then Points(it, k) else it.node == null
    {
      hide Linked, BNode.Rep, Place;
      if root == null {
        EmptyTree();
        return Iter(null, 0);
      }
      it := InternalLocate(k, false, linear);
      it := InternalLast(it, k, false);
      if it.node != null {
        NodeAt(it.node);
        SlotOk(it.node, it.position);
        if k >= it.node.values[it.position].key {
          return it;
        }
      }
      return Iter(null, 0);
    }

    // ---- Insertion ----

    /** A value with the key k may come in at pos of n, and below child pos of n. */
    ghost predicate Slot(n: BNode, pos: int, k: Key)
      reads `nodes, n
    {
      n in nodes && SlotIn(n.vals, n.lo, n.hi, pos, k)
    }

    /** Nodes below the level h keep their values, children and place. */
    twostate predicate LowerKept(new h: nat)
      reads *
    {
      forall m :: m in old(nodes) && old(m.height) < h ==>
        m in nodes && m.vals == old(m.vals) && m.kids == old(m.kids) && m.lo == old(m.lo) && m.hi == old(m.hi)
          && m.height == old(m.height)
    }

    ghost predicate Sized()
      reads `root, `content, root
    {
      root != null && !root.leaf ==> root.size == |content|
    }

    /** What rebalance_or_split leaves: a node with room where the slot for k is. */
    twostate predicate RoomAt(new n: BNode, new pos: int, new k: Key, new h: nat)
      reads *
    {
      && Linked() && root != null && Sized() && content == old(content) && Slot(n, pos, k) && n.height == h
        && |n.vals| < nodeValues
      && Filled({n}) && LowerKept(h) && old(Repr) <= Repr && fresh(Repr - old(Repr)) && n.maxCount == nodeValues
    }

    twostate lemma RebalancedFrame(new p: BNode, new l: BNode, new r: BNode, new i: nat, new h: nat)
      requires old(p in nodes && l in nodes && r in nodes) && Rebalanced(p, l, r, i) && old(Owned() && Filled({})) && Owned()
      requires l.height == h && r.height == h && p.height > h
      ensures LowerKept(h) && |p.vals| == |old(p.vals)|
      ensures |l.vals| >= 1 && |r.vals| >= 1 ==> Filled({})
      ensures |l.vals| >= 1 ==> Filled({r})
      ensures |r.vals| >= 1 ==> Filled({l})
    {
      hide BNode.Rep, HomeAfter, Sorted, Within;
    }

    /** A slot in the run of two neighbours before they are rebalanced is one of either of them after. */
    twostate lemma SlotMoved(new p: BNode, new l: BNode, new r: BNode, new i: nat, new q: nat, new k: Key)
      requires old(p in nodes && l in nodes && r in nodes) && Rebalanced(p, l, r, i) && i < |old(p.vals)|
      requires old(i < |p.vals| && SlotIn(l.vals + [p.vals[i]] + r.vals, l.lo, r.hi, q, k))
      ensures q <= |l.vals| ==> Slot(l, q, k)
      ensures q > |l.vals| ==> Slot(r, q - |l.vals| - 1, k)
      ensures |l.vals| + |r.vals| == |old(l.vals)| + |old(r.vals)| && content == old(content) && Repr == old(Repr)
        && root == old(root)
    {
      hide BNode.Rep, HomeAfter, OthersSame, LinksSame, SlotIn;
      assert q <= |l.vals + [p.vals[i]] + r.vals| by {
        SlotBound(old(l.vals + [p.vals[i]] + r.vals), old(l.lo), old(r.hi), q, k);
      }
      assert |l.vals + [p.vals[i]] + r.vals| == |old(l.vals) + [old(p.vals)[i]] + old(r.vals)|;
      SlotRun(l.vals, p.vals[i], r.vals, l.lo, r.hi, q, k);
    }

    /** The slots of two neighbours, as slots of their run. */
    lemma RunSlots(p: BNode, l: BNode, r: BNode, pos: int, k: Key)
      requires Linked() && p in nodes && l in nodes && r in nodes && l != root && l.parent == p
      requires l.position + 1 < |p.kids| && p.kids[l.position + 1] == r
      ensures l.position < |p.vals|
      ensures Slot(l, pos, k) ==> SlotIn(l.vals + [p.vals[l.position]] + r.vals, l.lo, r.hi, pos, k)
      ensures Slot(r, pos, k) ==> SlotIn(l.vals + [p.vals[l.position]] + r.vals, l.lo, r.hi, |l.vals| + 1 + pos, k)
    {
      hide Linked, BNode.Rep, Sorted, Within;
      NeighboursOk(p, l, r);
      NodeAt(p);
      NodeAt(l);
      NodeAt(r);
      RunSorted(p, l, r);
      if Slot(l, pos, k) { SlotRun(l.vals, p.vals[l.position], r.vals, l.lo, r.hi, pos, k); }
      if Slot(r, pos, k) { SlotRun(l.vals, p.vals[l.position], r.vals, l.lo, r.hi, |l.vals| + 1 + pos, k); }
    }

    /** What rebalance_or_split starts from: a full node with a slot for k. */
    ghost predicate Full(n: BNode, pos: int, k: Key)
      reads this, Repr
    {
      && Linked() && root != null && root in nodes && root in Repr && Sized() && Filled({}) && n in Repr && Slot(n, pos, k)
      && |n.vals| == n.maxCount == nodeValues
    }

    /** What both rebalancing branches of rebalance_or_split rely on. */
    ghost predicate Siblings(p: BNode, l: BNode, r: BNode)
      reads `nodes, `root, p, l, r
    {
      p in nodes && l in nodes && r in nodes && l != root && r != root && l.parent == p && l.position + 1 < |p.kids|
        && p.kids[l.position + 1] == r
    }

    /** The neighbours of a node below the same parent, if there are any. */
    static ghost function LeftOf(n: BNode): BNode?
      reads n, n.parent
    {
      if n.parent != null && 0 < n.position < |n.parent.kids| then n.parent.kids[n.position - 1] else null
    }

    static ghost function RightOf(n: BNode): BNode?
      reads n, n.parent
    {
      if n.parent != null && n.position + 1 < |n.parent.kids| then n.parent.kids[n.position + 1] else null
    }

    /** A neighbour s can take values over: with two free places always, with one unless the value is to come in next to s. */
    ghost predicate Relieves(s: BNode?, atEnd: bool)
      reads s
    {
      s != null && (|s.vals| + 2 <= nodeValues || (|s.vals| + 1 == nodeValues && !atEnd))
    }

    ghost predicate LeftRelief(n: BNode, position: int)
      reads n, n.parent, LeftOf(n)
    {
      Relieves(LeftOf(n), position == 0)
    }

    ghost predicate RightRelief(n: BNode, position: int)
      reads n, n.parent, RightOf(n)
    {
      Relieves(RightOf(n), position == nodeValues)
    }

    /** s, with was values before, has filled up if the value is to come in at the far end of n, or else half its free places. */
    ghost predicate Relieved(n: BNode, s: BNode, was: int, farEnd: bool)
      reads n, s
    {
      var moved, free := |s.vals| - was, nodeValues - was;
      && |n.vals| + moved == nodeValues && 1 <= moved <= free
      && if farEnd then moved == free else 2 * moved == free || 2 * moved + 1 == free || free == 1
    }

    /** How many nodes are added to make room: none if a neighbour relieves the full node, and else one on every level up to one
        where there is room, or to above the root. */
    ghost function Growth(n: BNode, position: int): nat
      reads this, Repr
      requires Linked() && root != null && n in nodes
      decreases if root != null then root.height - n.height else 0
    {
      NeighboursOwned(n);
      if LeftRelief(n, position) || RightRelief(n, position) then 0
      else if n == root then 2
      else
        ParentFacts(n);
        if |n.parent.vals| < nodeValues then 1 else 1 + Growth(n.parent, n.position)
    }

    lemma NeighboursOwned(n: BNode)
      requires Linked() && root != null && n in nodes
      ensures n in Repr && n.parent != null && n.parent in Repr && (n == root ==> LeftOf(n) == null && RightOf(n) == null)
      ensures LeftOf(n) != null ==> LeftOf(n) in nodes && LeftOf(n) in Repr
      ensures RightOf(n) != null ==> RightOf(n) in nodes && RightOf(n) in Repr
    {
      hide Linked, BNode.ValsRep;
      IsRoot(n);
      OwnsNodes(n, n, n);
      if n == root {
        RootBounds();
        NodeAt(root.parent);
        OwnsNodes(root.parent, n, n);
      } else {
        ParentFacts(n);
        SiblingParents(n);
        OwnsNodes(n.parent, n, n);
        if LeftOf(n) != null { OwnsNodes(LeftOf(n), n, n); }
        if RightOf(n) != null { OwnsNodes(RightOf(n), n, n); }
      }
    }

    lemma GrowthIs(n: BNode, position: int)
      requires Linked() && root != null && n in nodes
      ensures LeftRelief(n, position) || RightRelief(n, position) ==> Growth(n, position) == 0
      ensures !(LeftRelief(n, position) || RightRelief(n, position)) ==> Growth(n, position) == SplitGrowth(n)
    {
      hide Linked;
    }

    /** The left neighbour and what would move there. */
    lemma LeftBias(n: BNode, position: int, s: BNode, toMove: int)
      requires n.parent != null && 0 < n.position < |n.parent.kids| && s == n.parent.kids[n.position - 1]
        && |s.vals| <= nodeValues
      requires 0 <= position <= nodeValues
      requires |s.vals| < nodeValues ==> toMove == Max(1, (nodeValues - |s.vals|) / (1 + if position < nodeValues then 1 else 0))
      ensures LeftOf(n) == s && (LeftRelief(n, position) <==>
        |s.vals| < nodeValues && (position - toMove >= 0 || |s.vals| + toMove < nodeValues))
      ensures |s.vals| < nodeValues ==> 1 <= toMove <= nodeValues - |s.vals|
    {
      if |s.vals| < nodeValues { Bias(nodeValues - |s.vals|, nodeValues, position, toMove); }
    }

    lemma RightBias(n: BNode, position: int, s: BNode, toMove: int)
      requires n.parent != null && n.position + 1 < |n.parent.kids| && s == n.parent.kids[n.position + 1]
        && |s.vals| <= nodeValues
      requires 0 <= position <= nodeValues
      requires |s.vals| < nodeValues ==> toMove == Max(1, (nodeValues - |s.vals|) / (1 + if position > 0 then 1 else 0))
      ensures RightOf(n) == s && (RightRelief(n, position) <==>
        |s.vals| < nodeValues && (position <= nodeValues - toMove || |s.vals| + toMove < nodeValues))
      ensures |s.vals| < nodeValues ==> 1 <= toMove <= nodeValues - |s.vals|
    {
      if |s.vals| < nodeValues { Bias(nodeValues - |s.vals|, nodeValues, nodeValues - position, toMove); }
    }

    lemma RelievedOk(n: BNode, s: BNode, was: int, gap: int, toMove: int)
      requires was < nodeValues && 0 <= gap <= nodeValues && 0 <= was && |s.vals| == was + toMove
        && |n.vals| + toMove == nodeValues
      requires toMove == Max(1, (nodeValues - was) / (1 + if gap < nodeValues then 1 else 0))
      ensures Relieved(n, s, was, gap == nodeValues)
    {
      Bias(nodeValues - was, nodeValues, gap, toMove);
    }

    lemma NoNeighbour(n: BNode, position: int)
      requires Linked() && root != null && n in nodes
      ensures n == root || n.position == 0 ==> !LeftRelief(n, position)
      ensures n == root || n.position + 1 == |n.parent.kids| ==> !RightRelief(n, position)
    {
      hide Linked;
      NeighboursOwned(n);
    }

    /** How far the bias of rebalance_or_split goes. */
    static lemma Bias(free: int, max: int, gap: int, toMove: int)
      requires 1 <= free <= max && 0 <= gap <= max && toMove == Max(1, free / (1 + if gap < max then 1 else 0))
      ensures 1 <= toMove <= free
      ensures (gap - toMove >= 0 || toMove < free) <==> (free >= 2 || gap > 0)
      ensures if gap == max then toMove == free else 2 * toMove == free || 2 * toMove + 1 == free || free == 1
    {
    }

    /** rebalance_or_split with the left sibling: toMove values go there. */
    method ShiftLeft(p: BNode, left: BNode, node: BNode, position: int, toMove: int, ghost k: Key) returns (n: BNode, pos: int)
      requires Full(node, position, k) && Siblings(p, left, node)
      requires 1 <= toMove && |left.vals| + toMove <= left.maxCount
      requires position - toMove >= 0 || |left.vals| + toMove < left.maxCount
      modifies Repr
      ensures RoomAt(n, pos, k, old(node.height)) && nodes == old(nodes)
      ensures |left.vals| == |old(left.vals)| + toMove && |node.vals| + toMove == nodeValues
    {
      hide Linked, BNode.Rep, SlotIn, Rebalanced, LowerKept;
      NodeAt(left);
      NodeAt(node);
      NeighboursOk(p, left, node);
      KidParent(p, left);
      RunSlots(p, left, node, position, k);
      SlotBound(node.vals, node.lo, node.hi, position, k);
      ghost var i, h := left.position, node.height;
      ghost var q := |left.vals| + 1 + position;
      Pull(p, left, node, toMove);
      RebalancedHeights(p, left, node, i);
      n, pos := node, position - toMove;
      SlotMoved(p, left, node, i, q, k);
      NodeAt(left);
      NodeAt(node);
      RebalancedFrame(p, left, node, i, h);
      if pos < 0 {
        pos := pos + left.count + 1;
        n := left;
      }
    }

    twostate lemma RebalancedHeights(new p: BNode, new l: BNode, new r: BNode, new i: nat)
      requires old(p in nodes && l in nodes && r in nodes) && Rebalanced(p, l, r, i)
      ensures p.height == old(p.height) && l.height == old(l.height) && r.height == old(r.height) && Repr == old(Repr)
        && root == old(root)
      ensures p in nodes && l in nodes && r in nodes && nodes == old(nodes)
    {
      hide BNode.Rep, HomeAfter, OthersSame, LinksSame;
    }

    /** rebalance_or_split with the right sibling. */
    method ShiftRight(p: BNode, node: BNode, right: BNode, position: int, toMove: int, ghost k: Key) returns (n: BNode, pos: int)
      requires Full(node, position, k) && Siblings(p, node, right)
      requires 1 <= toMove && |right.vals| + toMove <= right.maxCount
      requires position <= |node.vals| - toMove || |right.vals| + toMove < right.maxCount
      modifies Repr
      ensures RoomAt(n, pos, k, old(node.height)) && nodes == old(nodes)
      ensures |right.vals| == |old(right.vals)| + toMove && |node.vals| + toMove == nodeValues
    {
      hide Linked, BNode.Rep, SlotIn, Rebalanced, LowerKept;
      NodeAt(right);
      NodeAt(node);
      NeighboursOk(p, node, right);
      KidParent(p, node);
      RunSlots(p, node, right, position, k);
      SlotBound(node.vals, node.lo, node.hi, position, k);
      ghost var i, h := node.position, node.height;
      Push(p, node, right, toMove);
      RebalancedHeights(p, node, right, i);
      n, pos := node, position;
      SlotMoved(p, node, right, i, position, k);
      NodeAt(right);
      NodeAt(node);
      RebalancedFrame(p, node, right, i, h);
      if pos > node.count {
        pos := pos - node.count - 1;
        n := right;
      }
    }

    // ---- Splitting a full node ----

    twostate lemma SplitFrame(new p: BNode, new n: BNode, new d: BNode, new i: nat, new h: nat)
      requires old(p in nodes && n in nodes) && WasSplit(p, n, d, i)
      requires old(Owned() && Filled({p}) && n.height == h && p.height > h) && Linked()
      ensures Owned() && LowerKept(h) && content == old(content) && n in nodes && d in nodes && p in nodes
        && |p.vals| <= |old(p.vals)| + 1
      ensures |n.vals| >= 1 ==> Filled({d})
      ensures |d.vals| >= 1 ==> Filled({n})
      ensures d.maxCount == n.maxCount && d.height == n.height && n.height == old(n.height)
      ensures |n.vals| + 1 + |d.vals| == |old(n.vals)| && nodes == old(nodes) + {d}
      ensures i < |p.kids| - 1 && p.kids[i] == n && p.kids[i + 1] == d
    {
      hide BNode.Rep, HomeAfter, Sorted, Within, BNode.Settled, NodeOk, KidsOk, UpOk, Stored, Cover, RootOk;
    }

    /** The slot of the node that is split is one of either half. */
    twostate lemma SplitSlot(new p: BNode, new n: BNode, new d: BNode, new i: nat, new q: int, new k: Key)
      requires old(p in nodes && n in nodes) && WasSplit(p, n, d, i) && old(n in nodes && SlotIn(n.vals, n.lo, n.hi, q, k))
      ensures 0 <= q <= |old(n.vals)|
      ensures q <= |n.vals| ==> Slot(n, q, k)
      ensures q > |n.vals| ==> Slot(d, q - |n.vals| - 1, k)
    {
      hide BNode.Rep, HomeAfter, OthersSame, LinksSame, SlotIn, BNode.Settled;
      SlotBound(old(n.vals), old(n.lo), old(n.hi), q, k);
      SlotRun(n.vals, p.vals[i], d.vals, n.lo, d.hi, q, k);
    }

    /** n is full, and its parent p has room for another value. */
    ghost predicate Ready(p: BNode, n: BNode, pos: int, k: Key)
      reads this, Repr
    {
      && Linked() && root != null && root in nodes && root in Repr && Sized() && p in nodes && n in nodes && p in Repr
        && n in Repr
      && n != root && n.parent == p && |p.vals| < p.maxCount && Filled({p}) && Slot(n, pos, k)
        && |n.vals| == n.maxCount == nodeValues
      && p.height == n.height + 1
    }

    /** A new node that has no value yet and can become n's sibling. */
    ghost predicate Sibling(d: BNode, n: BNode)
      reads this, d, d.values, n
    {
      && d !in nodes && d !in Repr && d.values !in Repr && d.children !in Repr && d.leaf == n.leaf && d.maxCount == n.maxCount
      && d.ValsRep() && d.vals == [] && d.kids == [] && d.children.Length == (if d.leaf then 0 else d.maxCount + 1)
    }

    /** What rebalance_or_split leaves, but for what it allocated. */
    twostate predicate Made(new n: BNode, new pos: int, new k: Key, new h: nat)
      reads *
    {
      && Linked() && root != null && Sized() && content == old(content) && Slot(n, pos, k) && n.height == h
        && |n.vals| < nodeValues
      && Filled({n}) && LowerKept(h) && n.maxCount == nodeValues
    }

    /** l and r are the halves of a full node: empty where the value is to come in at an end, and else equal up to one. */
    ghost predicate Halved(l: BNode, r: BNode, position: int, n: BNode, pos: int)
      reads l, l.parent, r
    {
      && RightOf(l) == r && |l.vals| + |r.vals| == nodeValues - 1 && (n == l || n == r)
      && (position == 0 ==> n == l && l.vals == [] && pos == 0)
      && (position == nodeValues ==> n == r && r.vals == [] && pos == 0)
      && (0 < position < nodeValues ==> 0 <= |r.vals| - |l.vals| <= 1)
    }

    lemma HalvedOk(p: BNode, l: BNode, r: BNode, i: nat, position: int, n: BNode, pos: int)
      requires Linked() && p in nodes && i + 1 < |p.kids| && p.kids[i] == l && p.kids[i + 1] == r && nodeValues >= 3
      requires |l.vals| + |r.vals| == nodeValues - 1 && 0 <= position <= nodeValues
      requires BNode.Biased(nodeValues, position, |l.vals|, |r.vals|)
      requires if position > |l.vals| then n == r && pos == position - |l.vals| - 1 else n == l && pos == position
      ensures Halved(l, r, position, n, pos)
    {
      hide Linked, BNode.Rep;
      NodeAt(p);
      assert KidOk(p, i) && KidOk(p, i + 1);
    }

    /** split, and the choice of the half with the slot. */
    method SplitInto(p: BNode, node: BNode, splitNode: BNode, position: int, ghost k: Key) returns (n: BNode, pos: int)
      requires Ready(p, node, position, k) && Sibling(splitNode, node)
      modifies Repr, splitNode, splitNode.values, splitNode.children
      ensures Made(n, pos, k, old(node.height)) && Repr == old(Repr) + {splitNode, splitNode.values, splitNode.children}
      ensures nodes == old(nodes) + {splitNode} && Halved(node, splitNode, position, n, pos)
    {
      hide Linked, BNode.Rep, SlotIn, WasSplit, LowerKept, BNode.ValsRep, Filled, Owned, NodeOk, KidsOk, UpOk, Stored, Cover,
        Halved;
      ghost var h, i := node.height, node.position;
      NodeAt(node);
      RootBounds();
      SlotBound(node.vals, node.lo, node.hi, position, k);
      SplitNode(p, node, splitNode, position);
      n, pos := node, position;
      SplitFrame(p, node, splitNode, i, h);
      SplitSlot(p, node, splitNode, i, position, k);
      NodeAt(node);
      if pos > node.count {
        pos := pos - node.count - 1;
        n := splitNode;
      }
      HalvedOk(p, node, splitNode, i, position, n, pos);
    }

    /** The end of rebalance_or_split. */
    method SplitHalf(p: BNode, node: BNode, position: int, ghost k: Key) returns (n: BNode, pos: int)
      requires Ready(p, node, position, k)
      modifies Repr
      ensures RoomAt(n, pos, k, old(node.height))
      ensures |nodes| == |old(nodes)| + 1 && exists l, r :: Halved(l, r, position, n, pos)
    {
      hide Linked, BNode.Rep, SlotIn, Slot, Filled, BNode.ValsRep, Halved;
      var splitNode: BNode;
      NodeAt(node);
      if node.leaf {
        splitNode := new BNode.NewLeaf(node.maxCount, p);
        FreshLeaf(splitNode);
      } else {
        splitNode := new BNode.NewInternal(node.maxCount, p);
      }
      n, pos := SplitInto(p, node, splitNode, position, k);
    }

    static lemma FreshLeaf(n: BNode)
      requires n.leaf && n.Rep()
      ensures n.ValsRep() && n.children.Length == 0
    {
    }

    /** The root was a full leaf: now it is the only child of the new root x. */
    method RaiseOver(x: BNode, position: int, ghost k: Key)
      requires root != null && Full(root, position, k) && root.leaf && Blank(x) && x.parent == root.parent == x.rightmost
      requires x.size == root.parent.count
      modifies Repr, x, x.children
      ensures old(root) != null && Ready(x, old(root), position, k) && LowerKept(old(root.height)) && content == old(content)
      ensures Repr == old(Repr) + {x, x.values, x.children} && x == root && old(root).height == old(root.height)
      ensures nodes == old(nodes) + {x}
    {
      hide Linked, BNode.Rep, SlotIn, Raised, Filled, Owned, NodeOk, KidsOk, UpOk, Stored, Cover;
      LeafRootAlone();
      RootBounds();
      NodeAt(root);
      ghost var o := root;
      RaiseRoot(x);
      RaisedFrame(o, x, position, k);
      NodeAt(o);
    }

    twostate lemma RaisedFrame(new o: BNode, new x: BNode, new pos: int, new k: Key)
      requires Linked() && Raised(o, x) && old(o in nodes && o.leaf && Owned() && Filled({}) && Slot(o, pos, k) && NodeOk(o))
      ensures Filled({x}) && Slot(o, pos, k) && o.parent == x && |x.vals| == 0 && x.maxCount == nodeValues
      ensures x.height == o.height + 1 && x in Repr
      ensures LowerKept(old(o.height)) && o.height == old(o.height) && content == old(content) && o in nodes && x in nodes
      ensures |o.vals| == |old(o.vals)| && nodes == old(nodes) + {x}
    {
      hide KidsOk, UpOk, Stored, Cover, RootOk, BNode.Rep, Sorted, Within;
      assert old(NodeOk(o));
      assert x.kids[0] == o;
      KidParent(x, o);
    }

    /** The root was a full internal node: now x has its contents and is its only child. */
    method DeepenOver(x: BNode, position: int, ghost k: Key)
      requires root != null && Full(root, position, k) && !root.leaf && Blank(x)
      modifies Repr, x, x.values, x.children
      ensures root == old(root) && root != null && Ready(root, x, position, k) && LowerKept(old(root.height))
        && content == old(content)
      ensures Repr == old(Repr) + {x, x.values, x.children} && x.height == old(root.height)
      ensures nodes == old(nodes) + {x}
    {
      hide Linked, BNode.Rep, SlotIn, Deepened, Filled, Owned, NodeOk, KidsOk, UpOk, Stored, Cover;
      NodeAt(root);
      RootBounds();
      DeepenRoot(x);
      DeepenedFrame(root, x, position, k);
      NodeAt(root);
      NodeAt(x);
    }

    twostate lemma DeepenedFrame(new o: BNode, new x: BNode, new pos: int, new k: Key)
      requires Linked() && Deepened(o, x) && old(o in nodes && Owned() && Filled({}) && Slot(o, pos, k) && o.lo == Open
        && o.hi == Open)
      requires |old(o.vals)| >= 1
      ensures Filled({o}) && Slot(x, pos, k) && x.parent == o && |o.vals| == 0 && o.height == x.height + 1 && x in Repr
      ensures LowerKept(old(o.height)) && x.height == old(o.height) && content == old(content) && o in nodes && x in nodes
      ensures |x.vals| == |old(o.vals)| && nodes == old(nodes) + {x}
    {
      hide NodeOk, KidsOk, UpOk, Stored, Cover, RootOk, BNode.Rep, Sorted, Within, HomeMerged;
    }

    /** rebalance_or_split at the root: there is a new level above the full node. */
    method GrowRoot(position: int, ghost k: Key) returns (p: BNode, n: BNode)
      requires root != null && Full(root, position, k)
      modifies Repr
      ensures Ready(p, n, position, k) && old(root) != null && LowerKept(old(root.height)) && n.height == old(root.height)
      ensures content == old(content) && |nodes| == |old(nodes)| + 1
      ensures old(Repr) <= Repr && fresh(Repr - old(Repr))
    {
      hide Linked, BNode.Rep, SlotIn, Slot, Filled, BNode.ValsRep, NodeOk, KidsOk, UpOk, Stored, Cover, Owned, Sized, LowerKept;
      if root.leaf {
        p, n := GrowLeafRoot(position, k);
      } else {
        p, n := GrowInnerRoot(position, k);
      }
    }

    method GrowLeafRoot(position: int, ghost k: Key) returns (p: BNode, n: BNode)
      requires root != null && Full(root, position, k)
      requires root.leaf
      modifies Repr
      ensures Ready(p, n, position, k) && old(root) != null && LowerKept(old(root.height)) && n.height == old(root.height)
      ensures content == old(content) && |nodes| == |old(nodes)| + 1
      ensures old(Repr) <= Repr && fresh(Repr - old(Repr))
    {
      hide Linked, BNode.Rep, SlotIn, Slot, Filled, BNode.ValsRep, NodeOk, KidsOk, UpOk, Stored, Cover, Owned, Sized;
      RootBounds();
      NodeAt(root);
      LeafRootAlone();
      n := root;
      p := new BNode.NewInternal(nodeValues, root.parent);
      p.rightmost, p.size := root.parent, root.parent.count;
      RaiseOver(p, position, k);
    }

    method GrowInnerRoot(position: int, ghost k: Key) returns (p: BNode, n: BNode)
      requires root != null && Full(root, position, k)
      requires !root.leaf
      modifies Repr
      ensures Ready(p, n, position, k) && old(root) != null && LowerKept(old(root.height)) && n.height == old(root.height)
      ensures content == old(content) && |nodes| == |old(nodes)| + 1
      ensures old(Repr) <= Repr && fresh(Repr - old(Repr))
    {
      hide Linked, BNode.Rep, SlotIn, Slot, Filled, BNode.ValsRep, NodeOk, KidsOk, UpOk, Stored, Cover, Owned, Sized;
      RootBounds();
      NodeAt(root);
      n := new BNode.NewInternal(nodeValues, root.parent);
      DeepenOver(n, position, k);
      p := root;
    }

    lemma ParentFacts(n: BNode)
      requires Linked() && n in nodes && n != root && root != null
      ensures n.parent != null && n.parent in nodes && !n.parent.leaf && n.parent.height == n.height + 1
        && n.parent.height <= root.height
      ensures n.position <= |n.parent.vals| && |n.parent.kids| == |n.parent.vals| + 1 && n.parent.kids[n.position] == n
      ensures n.parent.count == |n.parent.vals| && n.parent.maxCount == nodeValues && n.parent.count <= nodeValues
    {
      hide Linked, Sorted, Within;
      ParentKid(n);
      KidParent(n.parent, n);
      NodeAt(n.parent);
      KidsLeaf(n.parent);
      TopHeight(n.parent);
    }

    /** A slot in a node lies between its bounds. */
    lemma SlotSpans(n: BNode, pos: int, k: Key)
      requires Linked() && Slot(n, pos, k)
      ensures Spans(n, k)
    {
      hide Linked, BNode.Rep, Sorted;
      NodeAt(n);
    }

    /** The slot in the parent is where the child is. */
    lemma SlotAbove(n: BNode, pos: int, k: Key)
      requires Linked() && n != root && root != null && Slot(n, pos, k)
      ensures n.parent != null && Slot(n.parent, n.position, k)
    {
      hide Linked, BNode.Rep, Sorted;
      SlotSpans(n, pos, k);
      ClimbRight(n);
    }

    /** The child at a slot is the node below that spans the key. */
    lemma ChildAtSlot(p: BNode, pos: int, n: BNode, k: Key)
      requires Linked() && root != null && n in nodes && Spans(n, k) && Slot(p, pos, k) && p.height == n.height + 1
      ensures n != root && n.parent == p
    {
      hide Linked, Sorted, BNode.ValsRep;
      NodeAt(p);
      KidsLeaf(p);
      assert KidOk(p, pos);
      OneSpans(p.kids[pos], n, k);
      assert p.kids[pos] in p.kids;
      KidParent(p, n);
    }

    /** Room above the full node leaves it as it was. */
    twostate lemma BelowSlot(new p: BNode, new parentPosition: int, new n: BNode, new pos: int, new k: Key, new h: nat)
      requires RoomAt(p, parentPosition, k, h + 1)
      requires old(n in nodes && Linked() && Slot(n, pos, k) && |n.vals| == nodeValues && n.height == h)
      requires n.maxCount == nodeValues
      ensures Ready(p, n, pos, k) && LowerKept(h) && n.height == h
    {
      hide Linked, BNode.Rep, Sorted, SlotIn, Sized, Filled;
      assert n in nodes && n.vals == old(n.vals) && n.lo == old(n.lo) && n.hi == old(n.hi) && n.height == h;
      assert Slot(n, pos, k);
      SlotSpans(n, pos, k);
      ChildAtSlot(p, parentPosition, n, k);
      RootBounds();
      OwnsNodes(root, p, n);
    }

    /** The parent has room already. */
    lemma ReadyHere(p: BNode, n: BNode, pos: int, k: Key)
      requires Full(n, pos, k) && n != root && n.parent == p && p in nodes && |p.vals| < p.maxCount && p.height == n.height + 1
      ensures Ready(p, n, pos, k)
    {
      hide Linked, SlotIn;
      OwnsNodes(p, n, n);
    }

    /** The other children of the parent know it. */
    lemma SiblingParents(n: BNode)
      requires Linked() && n in nodes && n != root && n.parent != null && n.parent in nodes
      ensures forall j :: 0 <= j < |n.parent.kids| ==>
        && n.parent.kids[j].parent == n.parent && n.parent.kids[j].position == j && n.parent.kids[j] in nodes
          && n.parent.kids[j] != root
        && j < n.parent.children.Length && n.parent.children[j] == n.parent.kids[j]
    {
      hide Linked, BNode.ValsRep;
      NodeAt(n.parent);
      var p := n.parent;
      forall j | 0 <= j < |p.kids|
        ensures p.kids[j].parent == p && p.kids[j].position == j && p.kids[j] in nodes && p.kids[j] != root
        ensures j < p.children.Length && p.children[j] == p.kids[j]
      {
        assert KidOk(p, j);
        assert p.kids[j] in p.kids;
        KidParent(p, p.kids[j]);
        assert p.children[j] == p.children[..|p.kids|][j];
      }
    }

    static function Max(a: int, b: int): int { if a < b then b else a }

    /** rebalance_or_split: makes room where a value with the key k is to come into the full node. */
    method RebalanceOrSplit(node: BNode, position: int, ghost k: Key) returns (n: BNode, pos: int)
      requires Full(node, position, k)
      modifies Repr
      ensures RoomAt(n, pos, k, old(node.height)) && |nodes| == |old(nodes)| + old(Growth(node, position))
      ensures old(LeftRelief(node, position)) ==>
        nodes == old(nodes) && Relieved(node, old(LeftOf(node)), old(|LeftOf(node).vals|), position == nodeValues)
      ensures !old(LeftRelief(node, position)) && old(RightRelief(node, position)) ==>
        nodes == old(nodes) && Relieved(node, old(RightOf(node)), old(|RightOf(node).vals|), position == 0)
      ensures !old(LeftRelief(node, position) || RightRelief(node, position)) ==> exists l, r :: Halved(l, r, position, n, pos)
      decreases if root == null then 0 else root.height - node.height, 2
    {
      hide Linked, BNode.Rep, SlotIn, LowerKept, Filled, Sized, RoomAt, Halved, LeftRelief, RightRelief, Relieved, Growth,
        SplitGrowth, Max, NodeOk, KidsOk, UpOk, Stored, Cover, Owned, RightOf, LeftOf;
      NodeAt(node);
      GrowthIs(node, position);
      NoNeighbour(node, position);
      SlotBound(node.vals, node.lo, node.hi, position, k);
      var p := node.parent;
      if node != root {
        ParentFacts(node);
        SiblingParents(node);
        if node.position > 0 {
          assert p.kids[node.position - 1] in nodes;
          var left: BNode := p.children[node.position - 1];
          NodeAt(left);
          ghost var was := |left.vals|;
          if left.count < left.maxCount {
            var toMove := Max(1, (left.maxCount - left.count) / (1 + if position < left.maxCount then 1 else 0));
            LeftBias(node, position, left, toMove);
            if position - toMove >= 0 || left.count + toMove < left.maxCount {
              n, pos := ShiftLeft(p, left, node, position, toMove, k);
              RelievedOk(node, left, was, position, toMove);
              return;
            }
          } else {
            LeftBias(node, position, left, 0);
          }
        }
        if node.position < p.count {
          assert p.kids[node.position + 1] in nodes;
          var right: BNode := p.children[node.position + 1];
          NodeAt(right);
          ghost var was := |right.vals|;
          if right.count < right.maxCount {
            var toMove := Max(1, (right.maxCount - right.count) / (1 + if position > 0 then 1 else 0));
            RightBias(node, position, right, toMove);
            if position <= node.count - toMove || right.count + toMove < right.maxCount {
              n, pos := ShiftRight(p, node, right, position, toMove, k);
              RelievedOk(node, right, was, nodeValues - position, toMove);
              return;
            }
          } else {
            RightBias(node, position, right, 0);
          }
        }
      }
      n, pos := SplitFull(node, position, k);
    }

    /** rebalance_or_split where no sibling has room: the node is split, below a parent with room or a new root. */
    method SplitFull(node: BNode, position: int, ghost k: Key) returns (n: BNode, pos: int)
      requires Full(node, position, k)
      modifies Repr
      ensures RoomAt(n, pos, k, old(node.height)) && (exists l, r :: Halved(l, r, position, n, pos))
      ensures |nodes| == |old(nodes)| + old(SplitGrowth(node))
      decreases if root == null then 0 else root.height - node.height, 1
    {
      hide Linked, BNode.Rep, SlotIn, Filled, Sized, NodeOk, KidsOk, UpOk, Stored, Cover, Halved, Growth;
      var p, m := node.parent, node;
      if node != root {
        ParentFacts(node);
        if p.count == p.maxCount {
          p := MakeParentRoom(node, position, k);
        } else {
          ReadyHere(p, node, position, k);
        }
      } else {
        p, m := GrowRoot(position, k);
      }
      n, pos := SplitHalf(p, m, position, k);
    }

    ghost function SplitGrowth(n: BNode): nat
      reads this, Repr
      requires Linked() && root != null && n in nodes
    {
      if n == root then 2
      else
        ParentFacts(n);
        if |n.parent.vals| < nodeValues then 1 else 1 + Growth(n.parent, n.position)
    }

    /** The recursive call of rebalance_or_split, which may give the node another parent. */
    method MakeParentRoom(node: BNode, position: int, ghost k: Key) returns (p: BNode)
      requires Full(node, position, k) && node != root && node.parent != null && node.parent in nodes
      requires |node.parent.vals| == node.parent.maxCount == nodeValues
      requires node.height < node.parent.height <= root.height
      modifies Repr
      ensures Ready(p, node, position, k) && LowerKept(old(node.height)) && node.height == old(node.height)
      ensures content == old(content) && old(Repr) <= Repr && fresh(Repr - old(Repr))
      ensures |nodes| == |old(nodes)| + old(Growth(node.parent, node.position))
      decreases if root == null then 0 else root.height - node.height, 0
    {
      hide Linked, BNode.Rep, SlotIn, Growth, Halved;
      SlotAbove(node, position, k);
      ghost var h := node.height;
      ParentFacts(node);
      NodeAt(node.parent);
      RootBounds();
      OwnsNodes(root, node.parent, node);
      var parentPosition: int;
      p, parentPosition := RebalanceOrSplit(node.parent, node.position, k);
      BelowSlot(p, parentPosition, node, position, k, h);
    }

    // ---- The size kept at an internal root ----

    /** Nothing but the size of the root has changed. */
    twostate predicate Resized()
      reads *
    {
      && root == old(root) && nodes == old(nodes) && home == old(home) && content == old(content) && Repr == old(Repr)
      && OthersSame({}) && LinksSame([]) && (root != null ==> root.rightmost == old(root.rightmost))
    }

    twostate lemma ResizedNode(new n: BNode)
      requires Resized() && old(n in nodes && Owned() && NodeOk(n) && KidsOk(n) && UpOk(n) && Stored(n) && Cover(n)) && Owned()
      ensures NodeOk(n) && KidsOk(n) && UpOk(n) && Stored(n) && Cover(n)
    {
      hide BNode.Rep, Sorted, Within, LoOf, HiOf, KeySet;
      assert Same(n) && SameLink(n);
      if n != root { assert Same(n.parent); }
      forall j | 0 <= j < |n.kids| ensures KidOk(n, j) {
        assert old(KidOk(n, j));
        assert Same(n.kids[j]) && SameLink(n.kids[j]);
      }
    }

    twostate lemma ResizedLinked()
      requires old(Linked()) && Resized() && root != null
      ensures Linked()
    {
      hide BNode.Rep, Sorted, Within, LoOf, HiOf, KeySet, NodeOk, KidsOk, UpOk, Stored, Cover;
      assert SameLink(root);
      forall n | n in nodes ensures NodeOk(n) && KidsOk(n) && UpOk(n) && Stored(n) && Cover(n) {
        assert old(NodeOk(n) && KidsOk(n) && UpOk(n) && Stored(n) && Cover(n));
        ResizedNode(n);
      }
    }

    method SetSize(size: nat)
      requires Linked() && root != null && !root.leaf
      modifies root`size
      ensures Linked() && root.size == size
    {
      hide Linked, NodeOk, KidsOk, UpOk, Stored, Cover, Owned, Sorted, Within;
      root.size := size;
      ResizedLinked();
    }

    /** size() */
    function Size(): (s: nat)
      reads this, root
    {
      if root == null then 0 else if root.leaf then root.count else root.size
    }

    lemma SizeIsCount()
      requires Linked() && Sized()
      ensures Size() == |content|
    {
      hide Linked;
      if root == null {
        EmptyTree();
      } else {
        RootBounds();
        NodeAt(root);
        if root.leaf { LeafRootAlone(); }
      }
    }

    /** Where internal_insert may put a value with the key k: a slot of a leaf, or before the next value of an internal node. */
    ghost predicate Room(it: Iter, k: Key)
      reads this, Repr, it.node
      requires Owned()
    {
      && it.node != null && it.node in nodes
      && (it.node.leaf ==> Slot(it.node, it.position, k) && Filled({it.node}))
      && (!it.node.leaf ==> Filled({}) && 0 <= it.position < |it.node.vals| && JustBefore(it.node.vals[it.position].key, k))
    }

    /** k comes before the key x, and after all keys below x. */
    ghost predicate JustBefore(x: Key, k: Key)
      reads `content
    {
      k < x && forall y :: y in content && y < x ==> y < k
    }

    /** A node holds no more than the content. */
    lemma NodeCount(n: BNode)
      requires Linked() && n in nodes
      ensures |n.vals| <= |content|
    {
      hide Linked;
      NodeAt(n);
      StoredKeys(n);
      KeyCount(n.vals);
      FewerKeys(KeySet(n.vals), content.Keys);
    }

    /** With room in some node, more keys than fit into one leaf are below an internal root. */
    lemma RootIsInternal(n: BNode)
      requires Linked() && root != null && n in nodes && |n.vals| < nodeValues <= |content|
      ensures !root.leaf
    {
      hide Linked;
      if root.leaf { LeafRootAlone(); }
    }

    /** The size counts the value that is about to come in. */
    ghost predicate SizedAhead()
      reads `root, `content, root
    {
      root != null && (!root.leaf ==> root.size == |content| + 1)
    }

    /** A leaf with room, as internal_insert leaves it before it puts the value in. */
    ghost predicate LeafRoom(n: BNode, pos: int, k: Key)
      reads this, Repr
    {
      Linked() && n in nodes && n.leaf && Slot(n, pos, k) && |n.vals| < n.maxCount && Filled({n}) && SizedAhead()
    }

    lemma FilledSame(n: BNode)
      requires Owned() && Filled({n}) && |n.vals| >= 1
      ensures Filled({})
    {
    }

    /** How many nodes an insertion at the place position of the leaf n adds. */
    ghost function Need(n: BNode, position: int): nat
      reads this, Repr
      requires Linked() && root != null && n in nodes
    {
      if |n.vals| == nodeValues then Growth(n, position) else 0
    }

    /** What there is once there is room at the place position of the leaf m, now in the leaf n. */
    twostate predicate Extended(new m: BNode, new position: int, new n: BNode, new size: nat)
      reads *
    {
      && m in old(nodes) && old(Linked() && root != null)
      && |nodes| == |old(nodes)| + old(Need(m, position))
      && (old(Need(m, position)) > 0 && (position == 0 || position == nodeValues) ==> |n.vals| == size)
    }

    static predicate PowerOfTwo(p: nat) {
      if p % 2 == 0 then p > 0 && PowerOfTwo(p / 2) else p == 1
    }

    /** A leaf root has as many places as the least power of two that is enough for c values, but no more than a node can have;
        above that the root is internal. */
    ghost predicate Snug(c: int)
      reads `root, root
    {
      root != null ==>
        && (root.leaf <==> c <= nodeValues)
        && (root.leaf ==> exists p: nat :: PowerOfTwo(p) && c <= p && (p == 1 || p < 2 * c) && root.maxCount == Least(p, nodeValues))
    }

    static function Least(a: nat, b: nat): nat { if a < b then a else b }

    /** The full root leaf is replaced by a larger one. */
    method Regrow(node: BNode, position: int, ghost k: Key) returns (n: BNode)
      requires Linked() && root != null && node in nodes && node.leaf && Slot(node, position, k)
      requires |node.vals| == node.maxCount < nodeValues
      modifies Repr
      ensures LeafRoom(n, position, k) && content == old(content) && old(Repr) <= Repr && fresh(Repr - old(Repr))
      ensures |nodes| == |old(nodes)| && (old(Snug(|content|)) ==> Snug(|content| + 1))
    {
      hide Linked, BNode.Rep, Sorted, Within, PowerOfTwo;
      NodeAt(node);
      RootBounds();
      LeafRootAlone();
      OwnsNodes(root, root, root);
      n := new BNode.NewLeaf(if 2 * node.maxCount < nodeValues then 2 * node.maxCount else nodeValues, null);
      n.parent := n;
      ghost var m := node.maxCount;
      RegrowRoot(n);
      NodeAt(n);
      Doubled(m);
    }

    static lemma Doubled(m: nat)
      ensures PowerOfTwo(m) ==> PowerOfTwo(2 * m)
    {
    }

    /** The full leaf is not the root, or as large as nodes get. */
    method RoomInLeaf(node: BNode, position: int, ghost k: Key) returns (n: BNode, pos: int)
      requires Full(node, position, k) && node.leaf
      modifies Repr
      ensures LeafRoom(n, pos, k) && content == old(content) && old(Repr) <= Repr && fresh(Repr - old(Repr))
      ensures Extended(node, position, n, 0) && (old(Snug(|content|)) ==> Snug(|content| + 1))
    {
      hide Linked, BNode.Rep, SlotIn, Filled, LowerKept, Growth, LeftRelief, RightRelief;
      GrowthIs(node, position);
      NodeAt(node);
      NodeCount(node);
      n, pos := RebalanceOrSplit(node, position, k);
      RootIsInternal(n);
      RootBounds();
      OwnsNodes(root, root, root);
      NodeAt(n);
      SizeUp(n, pos, k);
    }

    /** ++*mutable_size() */
    method SizeUp(ghost n: BNode, ghost pos: int, ghost k: Key)
      requires Linked() && Sized() && root != null && !root.leaf && n in nodes && n.leaf && Slot(n, pos, k)
      requires |n.vals| < n.maxCount && Filled({n})
      modifies root`size
      ensures LeafRoom(n, pos, k) && root != null
    {
      hide Linked, BNode.Rep, SlotIn;
      SetSize(root.size + 1);
    }

    /** internal_insert up to the insertion into the leaf. */
    method MakeRoom(node: BNode, position: int, ghost k: Key) returns (n: BNode, pos: int)
      requires Linked() && Sized() && root != null && node in nodes && node.leaf && Slot(node, position, k) && Filled({node})
      modifies Repr
      ensures LeafRoom(n, pos, k) && content == old(content) && old(Repr) <= Repr && fresh(Repr - old(Repr))
      ensures Extended(node, position, n, 0) && (old(Snug(|content|)) ==> Snug(|content| + 1))
    {
      hide Linked, BNode.Rep, SlotIn, Slot, Filled, Growth, PowerOfTwo;
      if |node.vals| < node.maxCount && Snug(|content|) { SnugRoom(node); }
      NodeAt(node);
      RootBounds();
      OwnsNodes(root, node, node);
      n, pos := node, position;
      if node.count == node.maxCount {
        if node.maxCount < nodeValues {
          n := Regrow(node, position, k);
        } else {
          FilledSame(node);
          n, pos := RoomInLeaf(node, position, k);
        }
      } else if !root.leaf {
        SizeUp(node, position, k);
      }
    }

    /** A leaf with room is enough for one value more. */
    lemma SnugRoom(n: BNode)
      requires Linked() && root != null && n in nodes && n.leaf && |n.vals| < n.maxCount && Snug(|content|)
      ensures Snug(|content| + 1)
    {
      hide Linked, PowerOfTwo;
      if root.leaf {
        LeafRootAlone();
        NodeAt(root);
      }
    }

    /** insert_value into the leaf with room. */
    method PutValue(n: BNode, position: int, e: Entry)
      requires LeafRoom(n, position, e.key) && e.key !in content
      modifies Repr
      ensures Linked() && Sized() && Filled({}) && root != null && content == old(content)[e.key := e.data]
        && Points(Iter(n, position), e.key)
      ensures Repr == old(Repr) && nodes == old(nodes) && |n.vals| == |old(n.vals)| + 1
      ensures old(Snug(|content| + 1)) ==> Snug(|content|)
    {
      hide Linked, BNode.Rep, Sorted, Filled, LeafInserted, PowerOfTwo;
      SlotWithin(n, position, e);
      InsertInLeaf(n, position, e);
      PutFrame(n, position, e);
    }

    lemma SlotWithin(n: BNode, pos: int, e: Entry)
      requires Slot(n, pos, e.key)
      ensures 0 <= pos <= |n.vals| && Within([e], LoOf(n.vals, n.lo, pos), HiOf(n.vals, n.hi, pos))
    {
    }

    twostate lemma PutFrame(new n: BNode, new pos: nat, new e: Entry)
      requires LeafInserted(n, pos, e) && old(Linked() && Filled({n}) && SizedAhead()) && Linked() && e.key !in old(content)
      requires root != null && old(root) == root && root.size == old(root.size)
      ensures Sized() && Filled({}) && content == old(content)[e.key := e.data] && Points(Iter(n, pos), e.key)
        && Repr == old(Repr)
      ensures nodes == old(nodes) && |n.vals| == |old(n.vals)| + 1 && |content| == |old(content)| + 1
    {
      hide BNode.Rep, Sorted, Within, NodeOk, KidsOk, UpOk, Stored, Cover, RootOk;
      assert content.Keys == old(content).Keys + {e.key};
      assert |content.Keys| == |old(content).Keys| + 1;
    }

    /** What an insertion of the key k that ended in the leaf n did to the number of nodes. */
    twostate predicate Gained(new n: BNode, new k: Key)
      reads *
    {
      && old(Linked() && root != null)
      && forall m, p :: m in old(nodes) && old(m.leaf && Slot(m, p, k)) ==> Extended(m, p, n, 1)
    }

    /** A key has one place in one leaf. */
    lemma OneSlot(m: BNode, p: int, n: BNode, q: int, k: Key)
      requires Linked() && root != null && m.leaf && n.leaf && Slot(m, p, k) && Slot(n, q, k)
      ensures m == n && p == q
    {
      hide Linked;
      SlotSpans(m, p, k);
      SlotSpans(n, q, k);
      NodeAt(m);
      NodeAt(n);
      OneSpans(m, n, k);
      OneSlotIn(m.vals, m.lo, m.hi, p, q, k);
    }

    /** internal_insert once the iterator is at a leaf. */
    method InsertAtLeaf(node: BNode, position: int, e: Entry) returns (r: Iter)
      requires Linked() && Sized() && root != null && node in nodes && node.leaf && Slot(node, position, e.key) && Filled({node})
      requires e.key !in content
      modifies Repr
      ensures Linked() && Sized() && Filled({}) && root != null && content == old(content)[e.key := e.data] && Points(r, e.key)
      ensures old(Repr) <= Repr && fresh(Repr - old(Repr)) && r.node != null && Gained(r.node, e.key)
      ensures old(Snug(|content|)) ==> Snug(|content|)
    {
      hide Linked, BNode.Rep, Slot, Filled, LeafRoom, Snug, Need;
      forall m, p | m in nodes && m.leaf && Slot(m, p, e.key) ensures m == node && p == position {
        OneSlot(m, p, node, position, e.key);
      }
      var n, pos := MakeRoom(node, position, e.key);
      PutValue(n, pos, e);
      r := Iter(n, pos);
    }

    /** internal_insert */
    method InternalInsert(it: Iter, e: Entry) returns (r: Iter)
      requires Linked() && Sized() && root != null && e.key !in content && Room(it, e.key)
      modifies Repr
      ensures Linked() && Sized() && Filled({}) && root != null && content == old(content)[e.key := e.data] && Points(r, e.key)
      ensures old(Repr) <= Repr && fresh(Repr - old(Repr)) && r.node != null && Gained(r.node, e.key)
      ensures old(Snug(|content|)) ==> Snug(|content|)
    {
      hide Linked, BNode.Rep, SlotIn, Filled, Need;
      var node: BNode, position := it.node, it.position;
      if !node.leaf {
        var before := Decrement(it, it.node.vals[it.position].key);
        AfterLast(before, it.node.vals[it.position].key, e.key);
        node, position := before.node, before.position + 1;
        forall m: BNode, p: int | m in old(nodes) && m.leaf
          ensures Slot(m, p, e.key) == old(Slot(m, p, e.key)) && Need(m, p) == old(Need(m, p)) {
        }
      }
      r := InsertAtLeaf(node, position, e);
    }

    /** The end of the leaf before an internal value is a slot for what comes just before that value. */
    lemma AfterLast(it: Iter, x: Key, k: Key)
      requires Linked() && Filled({}) && JustBefore(x, k) && it.node != null && it.node in nodes && it.node.hi == At(x)
      requires it.position == |it.node.vals| - 1 && exists y :: PrevKey(x, y) && Points(it, y)
      ensures Slot(it.node, it.position + 1, k) && Filled({it.node})
    {
      hide NodeOk, KidsOk, UpOk, Stored, Cover, RootOk;
    }

    /** Where the search for an absent key ends, there is room for it. */
    lemma GapRoom(it: Iter, last: Iter, k: Key)
      requires Linked() && root != null && it.node != null && Gap(it.node, it.position, k) && k !in content
      requires HiOf(it.node.vals, it.node.hi, it.position) == if last.node == null then Open else At(KeyOf(last))
      requires last.node != null ==> k < KeyOf(last)
      requires Filled({}) || (root.leaf && Filled({root}))
      ensures Room(it, k)
    {
      hide Linked, BNode.Rep, Sorted;
      NodeAt(it.node);
      if root.leaf { LeafRootAlone(); }
    }

    /** insert_unique on a tree with a root. */
    method InsertSearched(e: Entry, linear: bool) returns (it: Iter, inserted: bool)
      requires Linked() && Sized() && root != null && (Filled({}) || (root.leaf && |content| == 0 && Filled({root})))
      modifies Repr
      ensures Linked() && Sized() && Filled({}) && root != null && Points(it, e.key) && inserted == (e.key !in old(content))
      ensures content == if inserted then old(content)[e.key := e.data] else old(content)
      ensures old(Repr) <= Repr && fresh(Repr - old(Repr)) && it.node != null && (inserted ==> Gained(it.node, e.key))
      ensures (!inserted ==> nodes == old(nodes)) && (old(Snug(|content|)) ==> Snug(|content|))
    {
      hide Linked, BNode.Rep, Place, Filled, Sized, Room, HiOf, Need, SlotIn;
      it := InternalLocate(e.key, false, linear);
      var last := InternalLast(it, e.key, false);
      if last.node != null {
        NodeAt(last.node);
        SlotOk(last.node, last.position);
        PointsStored(last, KeyOf(last));
        if !(e.key < last.node.values[last.position].key) {
          return last, false;
        }
      }
      GapRoom(it, last, e.key);
      forall m: BNode, p: int | m in old(nodes) && m.leaf
        ensures Slot(m, p, e.key) == old(Slot(m, p, e.key)) && Need(m, p) == old(Need(m, p)) {
      }
      it := InternalInsert(it, e);
      inserted := true;
    }

    lemma SnugFirst()
      requires Linked() && root != null && root.leaf && root.maxCount == 1 && |content| == 0
      ensures Snug(|content|)
    {
      hide Linked;
      RootBounds();
      assert PowerOfTwo(1);
    }

    /** insert_unique */
    method InsertUnique(e: Entry, linear: bool) returns (it: Iter, inserted: bool)
      requires Linked() && Sized() && Filled({})
      modifies Repr
      ensures Linked() && Sized() && Filled({}) && root != null && Points(it, e.key) && inserted == (e.key !in old(content))
      ensures content == if inserted then old(content)[e.key := e.data] else old(content)
      ensures old(Repr) <= Repr && fresh(Repr - old(Repr)) && it.node != null
      ensures old(root) != null && inserted ==> Gained(it.node, e.key)
      ensures (!inserted ==> nodes == old(nodes)) && (old(Snug(|content|)) ==> Snug(|content|))
    {
      hide Linked, BNode.Rep, Need;
      if root == null {
        EmptyTree();
        var x := new BNode.NewLeaf(1, null);
        FirstRoot(x);
        SnugFirst();
      }
      it, inserted := InsertSearched(e, linear);
    }

    // ---- Erasure ----

    lemma GapGap(n: BNode, pos: int, g: Key)
      requires n in nodes && n.leaf
      ensures Gap(n, pos, g) <==> GapIn(n.vals, n.lo, n.hi, pos, g)
    {
    }

    /** The gaps of two neighbouring leaves, as gaps of their run. */
    lemma RunGaps(p: BNode, l: BNode, r: BNode, pos: int, g: Key)
      requires Linked() && p in nodes && l in nodes && r in nodes && l != root && l.parent == p
      requires l.position + 1 < |p.kids| && p.kids[l.position + 1] == r
      ensures l.position < |p.vals|
      ensures Gap(l, pos, g) ==> GapIn(l.vals + [p.vals[l.position]] + r.vals, l.lo, r.hi, pos, g)
      ensures Gap(r, pos, g) ==> GapIn(l.vals + [p.vals[l.position]] + r.vals, l.lo, r.hi, |l.vals| + 1 + pos, g)
    {
      hide Linked, BNode.Rep, Sorted, Within, Gap, GapIn;
      NeighboursOk(p, l, r);
      NodeAt(p);
      NodeAt(l);
      NodeAt(r);
      RunSorted(p, l, r);
      if Gap(l, pos, g) { GapLeaf(l, pos, g); }
      if Gap(r, pos, g) { GapLeaf(r, pos, g); }
      GapOfRun(l.vals, p.vals[l.position], r.vals, l.lo, r.hi, pos, g);
    }

    lemma GapLeaf(n: BNode, pos: int, g: Key)
      requires Gap(n, pos, g)
      ensures GapIn(n.vals, n.lo, n.hi, pos, g) && n in nodes && n.leaf && 0 <= pos <= |n.vals|
    {
    }

    /** The gap of a key in the run of two leaves before they are rebalanced is in either of them after. */
    twostate lemma GapMoved(new p: BNode, new l: BNode, new r: BNode, new i: nat, new q: int, new g: Key)
      requires old(p in nodes && l in nodes && r in nodes) && Rebalanced(p, l, r, i) && l.leaf && r.leaf
      requires old(i < |p.vals| && GapIn(l.vals + [p.vals[i]] + r.vals, l.lo, r.hi, q, g))
      ensures q <= |l.vals| ==> Gap(l, q, g)
      ensures q > |l.vals| ==> Gap(r, q - |l.vals| - 1, g)
    {
      hide BNode.Rep, HomeAfter, OthersSame, LinksSame, GapIn, Gap;
      GapInSides(l.vals, p.vals[i], r.vals, l.lo, r.hi, q, g);
      if q <= |l.vals| { GapGap(l, q, g); } else { GapGap(r, q - |l.vals| - 1, g); }
    }

    twostate lemma GapMerged(new p: BNode, new l: BNode, new r: BNode, new i: nat, new q: int, new g: Key)
      requires old(p in nodes && l in nodes && r in nodes) && Merged(p, l, r, i) && l.leaf
      requires old(i < |p.vals| && GapIn(l.vals + [p.vals[i]] + r.vals, l.lo, r.hi, q, g))
      ensures Gap(l, q, g)
    {
      hide BNode.Rep, HomeMerged, OthersSame, LinksSame, GapIn, Gap, BNode.Settled;
      GapGap(l, q, g);
    }

    /** A leaf that is not one of the three keeps its gaps. */
    twostate lemma GapKept(new xs: set<BNode>, new n: BNode, new pos: int, new g: Key)
      requires OthersSame(xs) && n !in xs && n in nodes && old(n in nodes && Gap(n, pos, g))
      ensures Gap(n, pos, g)
    {
      hide BNode.Rep;
      assert Same(n);
    }

    twostate lemma RebalancedFilled(new p: BNode, new l: BNode, new r: BNode, new i: nat)
      requires old(p in nodes && l in nodes && r in nodes) && Rebalanced(p, l, r, i) && |l.vals| >= 1 && |r.vals| >= 1
      requires old(Linked() && (Filled({l}) || Filled({r}))) && Linked()
      ensures Filled({}) && content == old(content) && nodes == old(nodes) && OthersSame({p, l, r})
      ensures l.height == old(l.height) && r.height == old(r.height) && Repr == old(Repr) && p.height == old(p.height)
    {
      hide BNode.Rep, HomeAfter, Sorted, Within, NodeOk, KidsOk, UpOk, Stored, Cover, RootOk;
    }

    twostate lemma MergedFilled(new p: BNode, new l: BNode, new r: BNode, new i: nat)
      requires old(p in nodes && l in nodes && r in nodes) && Merged(p, l, r, i)
      requires old(Linked() && (Filled({l}) || Filled({r}))) && Linked()
      ensures content == old(content) && nodes == old(nodes) - {r} && p in nodes && l in nodes
      ensures Owned() && Filled({p}) && OthersSame({p, l, r})
      ensures l.height == old(l.height) && Repr == old(Repr) && l.parent == old(l.parent) && p.height == old(p.height)
    {
      hide BNode.Rep, HomeMerged, Sorted, Within, NodeOk, KidsOk, UpOk, Stored, Cover, RootOk, BNode.Settled;
      assert SameLink(l);
    }

    /** While values are erased: n may be empty, and res is where the key g is or would be. */
    ghost predicate Mending(n: BNode, pos: int, res: Iter, g: Key)
      reads this, Repr, res.node
    {
      && Linked() && root != null && Sized() && n in nodes && Filled({n}) && res.node != null && Gap(res.node, res.position, g)
      && (n.leaf ==> res == Iter(n, pos))
    }

    /** From the level of n up everything is as it was, but that n has lost values, and has other children. */
    twostate predicate Upper(new n: BNode, new lost: int)
      reads *
    {
      && root == old(root) && n in old(nodes) && |n.vals| == |old(n.vals)| - lost
      && (forall m :: m in old(nodes) && old(m.height) >= old(n.height) ==>
            m in nodes && m.height == old(m.height) && SameLink(m))
      && (forall m :: m in old(nodes) && old(m.height) >= old(n.height) && m != n ==>
            |m.vals| == |old(m.vals)| && m.kids == old(m.kids))
    }

    twostate lemma MergedUpper(new p: BNode, new l: BNode, new r: BNode, new i: nat)
      requires old(p in nodes && l in nodes && r in nodes && Linked() && l.height < p.height && r.height < p.height)
      requires old(p in nodes && r in nodes && (forall c :: c in r.kids + p.kids ==> c.height < p.height)) && Merged(p, l, r, i)
      ensures Upper(p, 1) && r in old(nodes) && nodes == old(nodes) - {r}
    {
      hide BNode.Rep, HomeMerged, Sorted, Within, NodeOk, KidsOk, UpOk, Stored, Cover, RootOk, BNode.Settled, Linked;
      forall m | m in old(nodes) && old(m.height) >= old(p.height) ensures m in nodes && SameLink(m)
        && m.height == old(m.height) {
        assert m !in old(r.kids) + old(p.kids);
        assert m != p ==> Same(m);
      }
      forall m | m in old(nodes) && old(m.height) >= old(p.height) && m != p
        ensures |m.vals| == |old(m.vals)| && m.kids == old(m.kids) {
        assert Same(m);
      }
    }

    lemma KidsLower(p: BNode, r: BNode)
      requires Linked() && p in nodes && r in nodes && r.height < p.height
      ensures forall c :: c in r.kids + p.kids ==> c.height < p.height
    {
      hide Linked;
      forall c | c in r.kids + p.kids ensures c.height < p.height {
        if c in r.kids { KidParent(r, c); } else { KidParent(p, c); }
      }
    }

    /** merge_nodes of n and a sibling. */
    method MergePair(p: BNode, l: BNode, r: BNode, ghost n: BNode, ghost pos: int, ghost res: Iter, ghost g: Key)
      requires Mending(n, pos, res, g) && Siblings(p, l, r) && (n == l || n == r) && 1 + |l.vals| + |r.vals| <= l.maxCount
      modifies Repr
      ensures Linked() && Sized() && root == old(root) && root != null && content == old(content) && Repr == old(Repr)
      ensures p in nodes && Filled({p}) && l in nodes && l != root && l.parent == p
      ensures old(root) != null && root.height == old(root.height) && l.height == old(l.height)
      ensures Upper(p, 1) && r in old(nodes) && nodes == old(nodes) - {r}
      ensures res.node != null
        && if l.leaf then Gap(l, (if n == l then pos else old(|l.vals|) + 1 + pos), g) else Gap(res.node, res.position, g)
    {
      hide Linked, BNode.Rep, Merged, GapIn;
      ghost var i := l.position;
      NeighboursOk(p, l, r);
      NodeAt(p);
      RootBounds();
      RunGaps(p, l, r, pos, g);
      GapNodes(p, l, r, res, g);
      KidParent(p, l);
      KidsLower(p, r);
      MergeNodes(p, l, r);
      MergedFilled(p, l, r, i);
      MergedUpper(p, l, r, i);
      assert root != p ==> Same(root);
      if l.leaf {
        GapMerged(p, l, r, i, if n == l then pos else old(|l.vals|) + 1 + pos, g);
      } else {
        GapKept({p, l, r}, res.node, res.position, g);
      }
    }

    lemma GapNodes(p: BNode, l: BNode, r: BNode, res: Iter, g: Key)
      requires res.node != null && Gap(res.node, res.position, g) && !p.leaf && l.leaf == r.leaf
      ensures res.node.leaf && res.node in nodes && res.node != p && (!l.leaf ==> res.node != l && res.node != r)
    {
    }

    /** rebalance_right_to_left of n and its right sibling. */
    method PullPair(p: BNode, n: BNode, right: BNode, toMove: int, ghost pos: int, ghost res: Iter, ghost g: Key)
      requires Mending(n, pos, res, g) && Siblings(p, n, right) && 1 <= toMove < |right.vals| && |n.vals| + toMove <= n.maxCount
      modifies Repr
      ensures Linked() && Sized() && root == old(root) && root != null && content == old(content) && Repr == old(Repr)
      ensures Filled({}) && n in nodes && res.node != null && Gap(res.node, res.position, g) && nodes == old(nodes)
      ensures |n.vals| == |old(n.vals)| + toMove && |right.vals| == |old(right.vals)| - toMove
    {
      hide Linked, BNode.Rep, Rebalanced, GapIn;
      ghost var i := n.position;
      NeighboursOk(p, n, right);
      NodeAt(p);
      RunGaps(p, n, right, pos, g);
      GapNodes(p, n, right, res, g);
      Pull(p, n, right, toMove);
      RebalancedFilled(p, n, right, i);
      if n.leaf {
        GapMoved(p, n, right, i, pos, g);
      } else {
        GapKept({p, n, right}, res.node, res.position, g);
      }
    }

    /** rebalance_left_to_right of the left sibling of n and n. */
    method PushPair(p: BNode, left: BNode, n: BNode, toMove: int, ghost pos: int, ghost res: Iter, ghost g: Key)
      requires Mending(n, pos, res, g) && Siblings(p, left, n) && 1 <= toMove < |left.vals| && |n.vals| + toMove <= n.maxCount
      modifies Repr
      ensures Linked() && Sized() && root == old(root) && root != null && content == old(content) && Repr == old(Repr)
      ensures Filled({}) && n in nodes && res.node != null
        && if n.leaf then Gap(n, pos + toMove, g) else Gap(res.node, res.position, g)
      ensures |n.vals| == |old(n.vals)| + toMove && |left.vals| == |old(left.vals)| - toMove && nodes == old(nodes)
    {
      hide Linked, BNode.Rep, Rebalanced, GapIn;
      ghost var i := left.position;
      ghost var q := |left.vals| + 1 + pos;
      NeighboursOk(p, left, n);
      NodeAt(p);
      RunGaps(p, left, n, pos, g);
      GapNodes(p, left, n, res, g);
      Push(p, left, n, toMove);
      RebalancedFilled(p, left, n, i);
      if n.leaf {
        GapMoved(p, left, n, i, q, g);
      } else {
        GapKept({p, left, n}, res.node, res.position, g);
      }
    }

    /** kMinNodeValues */
    function MinValues(): nat { nodeValues / 2 }

    /** Which of the iterators holds the gap: the one at a leaf that is being repaired, or the last one that was at a leaf. */
    static function Latest(it: Iter, res: Iter): Iter
      reads it.node
    {
      if it.node != null && it.node.leaf then it else res
    }

    /** n, short of lost values, and its neighbour s fit into one node. */
    ghost predicate Fits(s: BNode?, n: BNode, lost: int)
      reads s, n
    {
      s != null && 1 + |s.vals| + |n.vals| - lost <= nodeValues
    }

    /** s has values to spare for a neighbour with c values. */
    ghost predicate Lends(s: BNode?, c: int, nextTo: bool)
      reads s
    {
      s != null && |s.vals| > nodeValues / 2 && (c == 0 || !nextTo)
    }

    /** n and s share total values evenly. */
    static ghost predicate Evened(n: BNode, s: BNode, total: int)
      reads n, s
    {
      |n.vals| + |s.vals| == total && 0 <= |s.vals| - |n.vals| <= 1
    }

    /** What becomes of n, once short of lost values, when it fits into no neighbour: it shares with the right one, or with the
        left one, unless the erasure was next to that one and n is not empty. */
    twostate predicate Leveled(new n: BNode, new position: int, new lost: int)
      reads *
    {
      && n in old(nodes)
      && var s, t, c := old(RightOf(n)), old(LeftOf(n)), |old(n.vals)| - lost;
        if old(Lends(RightOf(n), |n.vals| - lost, position <= 0)) then Evened(n, s, c + |old(RightOf(n).vals)|)
        else if old(Lends(LeftOf(n), |n.vals| - lost, position >= |n.vals| - lost)) then Evened(n, t, c + |old(LeftOf(n).vals)|)
        else |n.vals| == c
    }

    /** try_merge_or_rebalance */
    method TryMergeOrRebalance(node: BNode, position: int, ghost res: Iter, ghost g: Key)
      returns (merged: bool, n: BNode, pos: int)
      requires Mending(node, position, res, g) && node != root && |node.vals| < MinValues()
      modifies Repr
      ensures Linked() && Sized() && root == old(root) && root != null && content == old(content) && Repr == old(Repr)
      ensures n in nodes && (merged ==> n != root && n.parent != null && Filled({n.parent})) && (!merged ==> Filled({}))
      ensures merged ==> old(root) != null && root.height == old(root.height) && n.height == old(node.height)
      ensures Latest(Iter(n, pos), res).node != null && Gap(Latest(Iter(n, pos), res).node, Latest(Iter(n, pos), res).position, g)
      ensures merged <==> old(Fits(LeftOf(node), node, 0) || Fits(RightOf(node), node, 0))
      ensures merged ==> if old(Fits(LeftOf(node), node, 0)) then n == old(LeftOf(node))
        && pos == position + 1 + old(|LeftOf(node).vals|)
        else n == node && pos == position
      ensures merged ==> n.parent == old(node.parent) && Upper(n.parent, 1) && |nodes| == |old(nodes)| - 1
      ensures !merged ==> n == node && nodes == old(nodes) && Leveled(node, position, 0)
    {
      hide Linked, BNode.Rep, Filled, Sized, Gap, Upper, NodeOk, KidsOk, UpOk, Stored, Cover, Owned, Leveled;
      NodeAt(node);
      ParentFacts(node);
      SiblingParents(node);
      RootBounds();
      n, pos := node, position;
      var p := node.parent;
      if node.position > 0 {
        assert p.kids[node.position - 1] in nodes;
        var left: BNode := p.children[node.position - 1];
        NodeAt(left);
        if 1 + left.count + node.count <= left.maxCount {
          NeighboursOk(p, left, node);
          pos := pos + 1 + left.count;
          MergePair(p, left, node, node, position, res, g);
          return true, left, pos;
        }
      }
      if node.position < p.count {
        assert p.kids[node.position + 1] in nodes;
        var right: BNode := p.children[node.position + 1];
        NodeAt(right);
        if 1 + node.count + right.count <= right.maxCount {
          MergePair(p, node, right, node, position, res, g);
          return true, node, pos;
        }
      }
      merged := false;
      pos := TryRebalance(node, position, res, g);
    }

    /** The rebalancing half of try_merge_or_rebalance, for a node that fits into no neighbour. */
    method TryRebalance(node: BNode, position: int, ghost res: Iter, ghost g: Key) returns (pos: int)
      requires Mending(node, position, res, g) && node != root && |node.vals| < MinValues()
      requires !Fits(LeftOf(node), node, 0) && !Fits(RightOf(node), node, 0)
      modifies Repr
      ensures Linked() && Sized() && root == old(root) && root != null && content == old(content) && Repr == old(Repr)
      ensures node in nodes && Filled({}) && nodes == old(nodes) && Leveled(node, position, 0)
      ensures Latest(Iter(node, pos), res).node != null
      ensures Gap(Latest(Iter(node, pos), res).node, Latest(Iter(node, pos), res).position, g)
    {
      hide Linked, BNode.Rep, Filled, Sized, Gap, NodeOk, KidsOk, UpOk, Stored, Cover, Owned;
      NodeAt(node);
      ParentFacts(node);
      SiblingParents(node);
      RootBounds();
      Another(node.parent, node);
      pos := position;
      var p := node.parent;
      if node.position < p.count {
        assert p.kids[node.position + 1] in nodes;
        var right: BNode := p.children[node.position + 1];
        NodeAt(right);
        if right.count > MinValues() && (node.count == 0 || position > 0) {
          var toMove := Min((right.count - node.count) / 2, right.count - 1);
          PullPair(p, node, right, toMove, position, res, g);
          return;
        }
      }
      if node.position > 0 {
        assert p.kids[node.position - 1] in nodes;
        var left: BNode := p.children[node.position - 1];
        NodeAt(left);
        if left.count > MinValues() && (node.count == 0 || position < node.count) {
          var toMove := Min((left.count - node.count) / 2, left.count - 1);
          PushPair(p, left, node, toMove, position, res, g);
          pos := pos + toMove;
          return;
        }
      }
      FilledSame(node);
    }

    lemma Another(p: BNode, n: BNode)
      requires Owned() && Filled({n}) && p in nodes && p != n
      ensures |p.vals| >= 1
    {
    }

    static function Min(a: int, b: int): int { if a < b then a else b }

    /** try_shrink */
    method TryShrink(ghost res: Iter, ghost g: Key)
      requires root != null && Mending(root, res.position, res, g)
      modifies Repr
      ensures Linked() && Sized() && Filled({}) && content == old(content) && Repr == old(Repr)
      ensures root == null ==> content == map[]
      ensures root != null ==> res.node != null && Gap(res.node, res.position, g)
      ensures old(root) != null && |nodes| == |old(nodes)| - if |old(root.vals)| == 0 then 1 else 0
    {
      hide Linked, BNode.Rep;
      NodeAt(root);
      RootBounds();
      if root.count > 0 {
        FilledSame(root);
        return;
      }
      OwnsNodes(root, root, root);
      if root.leaf {
        LeafRootAlone();
        DropRoot();
        EmptyTree();
      } else {
        LoneChild();
        FirstKid(root);
        var child: BNode := root.children[0];
        if child.leaf {
          TwoNodes();
          LowerToLeaf();
        } else {
          LowerRoot(child);
          LoweredFrame(root, child, res.node, res.position, g);
        }
      }
    }

    twostate lemma LoweredFrame(new o: BNode, new c: BNode, new n: BNode, new pos: int, new g: Key)
      requires Lowered(o, c) && n.leaf && old(o in nodes && c in nodes && n in nodes && Owned() && Filled({o})
        && Gap(n, pos, g)) && Owned()
      ensures Filled({}) && Gap(n, pos, g) && content == old(content) && Repr == old(Repr) && nodes == old(nodes) - {c}
    {
      hide BNode.Rep, HomeMerged, Sorted, Within;
    }

    static function Further(h: Halt, merges: nat): Halt {
      h.(merges := h.merges + merges)
    }

    /** The course that merging takes from n, which is short of lost values: it goes on while a node that is not the root has too
        few values and fits into a neighbour. */
    ghost function Course(n: BNode, position: int, lost: int): Halt
      reads this, Repr
      requires Linked() && root != null && n in nodes
      decreases if root != null then root.height - n.height else 0
    {
      NeighboursOwned(n);
      if n == root || |n.vals| - lost >= nodeValues / 2 || !(Fits(LeftOf(n), n, lost) || Fits(RightOf(n), n, lost)) then
        Halt(n, position, lost, 0)
      else
        ParentFacts(n);
        Further(Course(n.parent, position + if Fits(LeftOf(n), n, lost) then 1 + |LeftOf(n).vals| else 0, 1), 1)
    }

    /** What is left once merging has ended there: as many nodes fewer, and one more if the root lost its last value; a node with
        too few values has shared with a neighbour if it could. */
    twostate predicate Halted(new h: Halt)
      reads *
    {
      && h.node in old(nodes)
      && if h.node == old(root) then |nodes| == |old(nodes)| - h.merges - (if |old(h.node.vals)| == h.lost then 1 else 0)
        else
          && |nodes| == |old(nodes)| - h.merges && root == old(root)
          && if |old(h.node.vals)| - h.lost >= nodeValues / 2 then |h.node.vals| == |old(h.node.vals)| - h.lost
            else Leveled(h.node, h.position, h.lost)
    }

    twostate lemma UpperNeighbours(new n: BNode, new lost: int)
      requires Upper(n, lost) && old(n in nodes && Linked() && root != null && n != root)
      ensures n.parent == old(n.parent) && LeftOf(n) == old(LeftOf(n)) && RightOf(n) == old(RightOf(n))
      ensures LeftOf(n) != null ==> LeftOf(n) in old(nodes) && |LeftOf(n).vals| == |old(LeftOf(n).vals)|
      ensures RightOf(n) != null ==> RightOf(n) in old(nodes) && |RightOf(n).vals| == |old(RightOf(n).vals)|
      ensures n.parent != null && n.parent in old(nodes) && old(n.parent.height) == old(n.height) + 1
    {
      hide BNode.Rep, NodeOk, KidsOk, UpOk, Stored, Cover, RootOk, Owned, Linked;
      OldNeighbours(n);
    }

    twostate lemma HaltsAt(new h: Halt)
      requires h.node in old(nodes) && (h.node == old(root) ==>
        |nodes| == |old(nodes)| - h.merges - if |old(h.node.vals)| == h.lost then 1 else 0)
      requires h.node != old(root) ==> |nodes| == |old(nodes)| - h.merges && root == old(root)
      requires h.node != old(root) && |old(h.node.vals)| - h.lost >= nodeValues / 2 ==> |h.node.vals| == |old(h.node.vals)| - h.lost
      requires h.node != old(root) && |old(h.node.vals)| - h.lost < nodeValues / 2 ==> Leveled(h.node, h.position, h.lost)
      ensures Halted(h)
    {
    }

    twostate lemma UpperFits(new n: BNode, new lost: int)
      requires Upper(n, lost) && old(n in nodes && Linked() && root != null && n != root)
      ensures Fits(LeftOf(n), n, 0) == old(Fits(LeftOf(n), n, lost)) && Fits(RightOf(n), n, 0) == old(Fits(RightOf(n), n, lost))
      ensures Fits(LeftOf(n), n, 0) ==> LeftOf(n) != null && old(LeftOf(n)) != null
    {
      hide Linked;
      UpperNeighbours(n, lost);
    }

    twostate lemma UpperLends(new n: BNode, new lost: int, new position: int)
      requires Upper(n, lost) && old(n in nodes && Linked() && root != null && n != root)
      ensures Lends(RightOf(n), |n.vals|, position <= 0) == old(Lends(RightOf(n), |n.vals| - lost, position <= 0))
      ensures Lends(LeftOf(n), |n.vals|, position >= |n.vals|) == old(Lends(LeftOf(n), |n.vals| - lost,
        position >= |n.vals| - lost))
      ensures Lends(RightOf(n), |n.vals|, position <= 0) ==> RightOf(n) != null
      ensures Lends(LeftOf(n), |n.vals|, position >= |n.vals|) ==> LeftOf(n) != null
    {
      hide Linked;
      UpperNeighbours(n, lost);
    }

    twostate lemma OldNeighbours(new n: BNode)
      requires old(n in nodes && Linked() && root != null && n != root)
      ensures old(n.parent) != null && old(n.parent) in old(nodes) && old(n.parent.height) == old(n.height) + 1
      ensures old(LeftOf(n)) != null ==> old(LeftOf(n)) in old(nodes) && old(LeftOf(n).height) == old(n.height) && old(LeftOf(n)) != n
      ensures old(RightOf(n)) != null ==> old(RightOf(n)) in old(nodes) && old(RightOf(n).height) == old(n.height) && old(RightOf(n)) != n
    {
      hide BNode.Rep, Sorted, Within, LoOf, HiOf, NodeOk, Stored, Cover, RootOk;
      assert old(UpOk(n));
      assert old(KidsOk(n.parent));
      assert old(KidOk(n.parent, n.position));
      if old(LeftOf(n)) != null { assert old(KidOk(n.parent, n.position - 1)); }
      if old(RightOf(n)) != null { assert old(KidOk(n.parent, n.position + 1)); }
    }

    twostate lemma CourseIs(new n: BNode, new position: int, new lost: int)
      requires old(n in nodes && Linked() && root != null)
      ensures n == old(root) || |old(n.vals)| - lost >= nodeValues / 2 || !old(Fits(LeftOf(n), n, lost)
        || Fits(RightOf(n), n, lost)) ==>
        old(Course(n, position, lost)) == Halt(n, position, lost, 0)
      ensures n != old(root) && |old(n.vals)| - lost < nodeValues / 2 && old(Fits(LeftOf(n), n, lost) || Fits(RightOf(n), n, lost)) ==>
        old(n.parent) != null && old(n.parent) in old(nodes)
        && old(Course(n, position, lost))
          == Further(old(Course(n.parent, position + if Fits(LeftOf(n), n, lost) then 1 + |LeftOf(n).vals| else 0, 1)), 1)
    {
      hide Linked;
      if n != old(root) { OldNeighbours(n); }
    }

    /** The loop of erase: merges and rebalances on the way up, and shrinks the tree when it reaches the root. */
    method Repair(it: Iter, ghost g: Key) returns (res: Iter)
      requires it.node != null && Mending(it.node, it.position, it, g)
      modifies Repr
      ensures Linked() && Sized() && Filled({}) && content == old(content) && Repr == old(Repr)
      ensures root == null ==> content == map[] && res == Iter(null, 0)
      ensures root != null ==> res.node != null && Gap(res.node, res.position, g)
      ensures Halted(old(Course(it.node, it.position, 0)))
    {
      hide Linked, BNode.Rep, Filled, Sized, Gap, Owned, Course, NodeOk, KidsOk, UpOk, Stored, Cover, LeftOf, RightOf,
        Evened, Place, Lends, Fits, Halted;
      var node: BNode, position := it.node, it.position;
      ghost var lost, merges := 0, 0;
      res := it;
      while true
        invariant Mending(node, position, res, g) && content == old(content) && Repr == old(Repr)
        invariant node in old(nodes) && Upper(node, lost) && |nodes| == |old(nodes)| - merges
        invariant old(Course(it.node, it.position, 0)) == Further(old(Course(node, position, lost)), merges)
        decreases if root == null then 0 else root.height - node.height
      {
        NodeAt(node);
        CourseIs(node, position, lost);
        if node == root {
          TryShrink(res, g);
          if root == null { res := Iter(null, 0); }
          HaltsAt(Halt(node, position, lost, merges));
          return;
        }
        if node.count >= MinValues() {
          RootBounds();
          FilledSame(node);
          HaltsAt(Halt(node, position, lost, merges));
          return;
        }
        UpperNeighbours(node, lost);
        UpperLends(node, lost, position);
        UpperFits(node, lost);
        ghost var h := Halt(node, position, lost, merges);
        var merged;
        merged, node, position := TryMergeOrRebalance(node, position, res, g);
        if node.leaf { res := Iter(node, position); }
        if !merged {
          HaltsAt(h);
          return;
        }
        ParentFacts(node);
        node := node.parent;
        lost, merges := 1, merges + 1;
      }
    }

    /** A bound is a key of an inner node. */
    lemma {:induction false} BoundKey(n: BNode)
      requires Linked() && root != null && n in nodes && n.lo.At?
      ensures n.lo.key in content && home[n.lo.key] in nodes && !home[n.lo.key].leaf
      decreases root.height - n.height
    {
      hide Linked, BNode.Rep, Sorted, Within;
      RootBounds();
      ClimbRight(n);
      ParentFacts(n);
      if n.position == 0 {
        BoundKey(n.parent);
      } else {
        PointsStored(Iter(n.parent, n.position - 1), n.lo.key);
      }
    }

    /** The key before that of an internal value is spanned by the child on its left. */
    lemma LeftChildSpans(p: BNode, i: nat, l: BNode, k1: Key)
      requires Linked() && root != null && p in nodes && !p.leaf && i < |p.vals| && l in nodes && l.leaf
      requires Points(Iter(l, |l.vals| - 1), k1) && PrevKey(p.vals[i].key, k1)
      ensures KidOk(p, i) && Spans(p.kids[i], k1)
    {
      hide Linked, BNode.ValsRep, Within;
      NodeAt(p);
      KidsLeaf(p);
      assert KidOk(p, i);
      PointsStored(Iter(l, |l.vals| - 1), k1);
      if p.kids[i].lo.At? {
        BoundKey(p.kids[i]);
        LowBelow(p.vals, p.lo, p.hi, i);
      }
    }

    /** value_swap of an internal value with its predecessor, which then leaves its leaf. */
    method SwapAndRemove(p: BNode, i: nat, l: BNode, ghost k: Key, ghost k1: Key)
      requires Linked() && root != null && p in nodes && !p.leaf && i < |p.vals| && p.vals[i].key == k
      requires l in nodes && l.leaf && l.hi == At(k) && Points(Iter(l, |l.vals| - 1), k1) && PrevKey(k, k1) && Filled({})
      modifies Repr
      ensures Linked() && root == old(root) && root != null && root.size == old(root.size) && content == old(content) - {k}
      ensures Repr == old(Repr) && nodes == old(nodes) && Upper(l, 1)
      ensures l in nodes && Filled({l}) && Gap(l, |l.vals|, k1) && |l.vals| == |old(l.vals)| - 1
    {
      hide Linked, BNode.Rep, Sorted, Within, Replaced, KidOk;
      NodeAt(p);
      NodeAt(l);
      LeftChildSpans(p, i, l, k1);
      PredecessorOk(l, k);
      RootBounds();
      OwnsNodes(p, l, root);
      ghost var e := l.vals[|l.vals| - 1];
      ReplaceStep(p, i, l);
      ReplacedFrame(p, i, l, k, e);
      ReplacedLinked(p, i, l, k, e);
      NodeAt(l);
    }

    twostate lemma ReplacedFrame(new p: BNode, new i: nat, new l: BNode, new k: Key, new e: Entry)
      requires Replaced(p, i, l, k, e)
      requires old(l in nodes && p in nodes && Owned() && NodeOk(l) && Filled({}) && l.hi == At(k) && |l.vals| >= 1)
      requires old(l in nodes && |l.vals| >= 1 && l.vals[|l.vals| - 1] == e && i < |p.vals|) && Owned() && e.key < k
      ensures |l.vals| == |old(l.vals)| - 1 && Filled({l}) && Gap(l, |l.vals|, e.key) && content == old(content) - {k}
      ensures Repr == old(Repr) && root == old(root) && nodes == old(nodes) && Upper(l, 1)
    {
      hide BNode.Rep;
      assert old(l.vals)[|l.vals|] == e;
      assert forall j :: 0 <= j < |l.vals| ==> l.vals[j] == old(l.vals)[j];
    }

    /** The first part of erase for a value of an internal node: its predecessor takes its place and leaves the leaf. */
    method TakeFromInternal(it: Iter, ghost k: Key) returns (r: Iter, ghost g: Key)
      requires Linked() && Sized() && root != null && Filled({}) && Points(it, k) && it.node != null && !it.node.leaf
      modifies Repr
      ensures r.node != null && Mending(r.node, r.position, r, g) && content == old(content) - {k} && Repr == old(Repr)
      ensures PrevKey(k, g) && nodes == old(nodes) && Upper(r.node, 1)
      ensures old(r.node in nodes && r.node.leaf && r.node.hi == At(k) && r.position == |r.node.vals| - 1)
    {
      hide Linked, BNode.Rep, Filled, Gap;
      PointsStored(it, k);
      InnerRoot(it.node);
      r := Decrement(it, k);
      g :| PrevKey(k, g) && Points(r, g);
      SwapAndRemove(it.node, it.position, r.node, k, g);
      PrevKept(old(content), k, g);
      OneFewer(old(content), k);
      RootOwned();
      SizeDown(r, g, k);
    }

    lemma PrevKept(was: map<Key, Data>, k: Key, g: Key)
      requires content == was - {k} && g in was && g < k && forall y :: y in was && y < k ==> y <= g
      ensures PrevKey(k, g)
    {
    }

    /** An inner node is below an internal root. */
    lemma InnerRoot(n: BNode)
      requires Linked() && root != null && n in nodes && !n.leaf
      ensures !root.leaf
    {
      hide Linked;
      if root.leaf { LeafRootAlone(); }
    }

    lemma RootOwned()
      requires Linked() && root != null
      ensures root in nodes && root in Repr
    {
      hide Linked;
      RootBounds();
      OwnsNodes(root, root, root);
    }

    method SizeDown(ghost it: Iter, ghost g: Key, ghost k: Key)
      requires Linked() && root != null && !root.leaf && root.size == |content| + 1
      requires it.node != null && Gap(it.node, it.position, g) && Filled({it.node})
      modifies root`size
      ensures it.node != null && Mending(it.node, it.position, it, g) && root == old(root)
    {
      hide Linked, BNode.Rep;
      SetSize(root.size - 1);
    }

    /** The first part of erase for a value of a leaf. */
    method TakeFromLeaf(it: Iter, ghost k: Key)
      requires Linked() && Sized() && root != null && Filled({}) && Points(it, k) && it.node != null && it.node.leaf
      modifies Repr
      ensures it.node != null && Mending(it.node, it.position, it, k) && content == old(content) - {k} && Repr == old(Repr)
      ensures nodes == old(nodes) && Upper(it.node, 1)
    {
      hide Linked, BNode.Rep, Filled, Sized;
      PointsStored(it, k);
      OneFewer(content, k);
      RootOwned();
      RemoveHere(it, k);
      if !root.leaf {
        SizeDown(it, k, k);
      }
    }

    /** remove_value on the leaf. */
    method RemoveHere(it: Iter, ghost k: Key)
      requires Linked() && Sized() && root != null && Filled({}) && Points(it, k) && it.node != null && it.node.leaf
      modifies Repr
      ensures Linked() && content == old(content) - {k} && Repr == old(Repr) && root == old(root) && root != null
      ensures it.node != null && Filled({it.node}) && Gap(it.node, it.position, k) && (!root.leaf ==> root.size == |old(content)|)
      ensures (root.leaf ==> Sized()) && nodes == old(nodes) && Upper(it.node, 1)
    {
      hide Linked, BNode.Rep, LeafRemoved;
      RemoveFromLeaf(it.node, it.position);
      RemovedFrame(it.node, it.position, k);
    }

    twostate lemma RemovedFrame(new n: BNode, new pos: nat, new k: Key)
      requires LeafRemoved(n, pos, k) && old(n in nodes && Linked() && Filled({}) && pos < |n.vals|) && Linked()
      ensures Filled({n}) && Gap(n, pos, k) && content == old(content) - {k} && Repr == old(Repr)
      ensures nodes == old(nodes) && Upper(n, 1)
    {
      RemovedUpper(n, pos, k);
      hide BNode.Rep, KidsOk, UpOk, Cover, RootOk, OthersSame, LinksSame;
      assert Filled({n}) by { RemovedFilled(n, pos, k); }
      assert old(NodeOk(n));
      RemovedGap(old(n.vals), pos, n.lo, n.hi);
    }

    twostate lemma RemovedUpper(new n: BNode, new pos: nat, new k: Key)
      requires LeafRemoved(n, pos, k) && old(n in nodes && pos < |n.vals|)
      ensures Upper(n, 1)
    {
      hide BNode.Rep;
      forall m | m in old(nodes) ensures m in nodes && m.height == old(m.height) && SameLink(m)
        ensures m != n ==> |m.vals| == |old(m.vals)| && m.kids == old(m.kids) {
        assert m != n ==> Same(m);
      }
    }

    twostate lemma RemovedFilled(new n: BNode, new pos: nat, new k: Key)
      requires LeafRemoved(n, pos, k) && old(n in nodes && Owned() && Filled({})) && Owned()
      ensures Filled({n})
    {
      hide BNode.Rep;
    }

    /** The last key of the leaf is the last before the gap at its end. */
    lemma GapAfterLast(n: BNode, g: Key)
      requires Linked() && Gap(n, |n.vals|, g) && |n.vals| >= 1
      ensures n.vals[|n.vals| - 1].key < g && forall y :: y in content && n.vals[|n.vals| - 1].key < y ==> g <= y
    {
      hide Linked, BNode.Rep;
      NodeAt(n);
      forall y | y in content && n.vals[|n.vals| - 1].key < y ensures g <= y {
        if y < g { LastKey(n.vals, y); }
      }
    }

    /** x is the least key that is not below g. */
    ghost predicate FirstFrom(g: Key, x: Key)
      reads `content
    {
      x in content && g <= x && forall y :: y in content && g <= y ==> x <= y
    }

    /** The adjustment of erase's result: from the gap of a key to the value after it. */
    method Settle(it: Iter, ghost g: Key) returns (r: Iter)
      requires Linked() && Filled({}) && it.node != null && Gap(it.node, it.position, g)
      ensures if IsEnd(r) then forall y :: y in content ==> y < g else exists x :: FirstFrom(g, x) && Points(r, x)
    {
      hide Linked, BNode.Rep;
      NodeAt(it.node);
      if it.position == it.node.count {
        ghost var last := it.node.vals[it.node.count - 1].key;
        GapAfterLast(it.node, g);
        r := Increment(Iter(it.node, it.node.count - 1), last);
        if !IsEnd(r) {
          ghost var x :| NextKey(last, x) && Points(r, x);
          assert FirstFrom(g, x);
        }
        return;
      }
      PlaceAhead(it.node, it.position, g, false);
      r := it;
      PointsStored(r, KeyOf(r));
      NotAtEnd(r, KeyOf(r));
      assert FirstFrom(g, KeyOf(r));
    }

    /** What erase gives back: the value after the key k, or the end. */
    ghost predicate After(r: Iter, k: Key)
      reads this, root, r.node
    {
      if root == null then r == Iter(null, 0) else if IsEnd(r) then forall y :: y in content ==> y < k else exists x :: NextKey(k, x) && Points(r, x)
    }

    /** The leaf that loses a value when k is erased at it, and the position of that value. */
    static ghost predicate LosesAt(l: BNode, position: int, it: Iter, k: Key)
      reads l, it.node
    {
      && l.leaf
      && if it.node == null || it.node.leaf then l == it.node && position == it.position
        else l.hi == At(k) && position == |l.vals| - 1
    }

    /** One leaf ends at a key. */
    lemma OneEndsAt(l: BNode, m: BNode, k: Key)
      requires Linked() && root != null && Filled({}) && l in nodes && m in nodes && l.leaf && m.leaf && l.hi == m.hi == At(k)
      ensures l == m
    {
      hide Linked, BNode.Rep;
      NodeAt(l);
      NodeAt(m);
      var x, y := l.vals[|l.vals| - 1].key, m.vals[|m.vals| - 1].key;
      OneSpans(l, m, if x < y then y else x);
    }

    /** Above the leaf that lost a value the course is the same. */
    twostate lemma {:induction false} CourseSame(new n: BNode, new m: BNode, new position: int, new lost: int)
      requires Upper(n, 1) && nodes == old(nodes) && Linked() && root != null && old(Linked() && n in nodes && n.height == 0)
      requires m in old(nodes) && old(m.height) > 0
      ensures Course(m, position, lost) == old(Course(m, position, lost))
      ensures Course(m, position, lost).node in nodes && old(Course(m, position, lost).node.height) > 0
      decreases if old(root) == null then 0 else old(root.height) - old(m.height)
    {
      hide Linked;
      RootBounds();
      TopHeight(m);
      CourseIs(m, position, lost);
      CourseNow(m, position, lost);
      if m != root {
        ParentFacts(m);
        TopHeight(m.parent);
        SameNeighbours(n, m);
        FitsSame(n, m, lost);
        CourseSame(n, m.parent, position + if Fits(LeftOf(m), m, lost) then 1 + |LeftOf(m).vals| else 0, 1);
      }
    }

    /** CourseIs, for the present state. */
    lemma CourseNow(n: BNode, position: int, lost: int)
      requires Linked() && root != null && n in nodes
      ensures n == root || |n.vals| - lost >= nodeValues / 2 || !(Fits(LeftOf(n), n, lost) || Fits(RightOf(n), n, lost)) ==>
        Course(n, position, lost) == Halt(n, position, lost, 0)
      ensures n != root && |n.vals| - lost < nodeValues / 2 && (Fits(LeftOf(n), n, lost) || Fits(RightOf(n), n, lost)) ==>
        n.parent != null && n.parent in nodes
        && Course(n, position, lost)
          == Further(Course(n.parent, position + if Fits(LeftOf(n), n, lost) then 1 + |LeftOf(n).vals| else 0, 1), 1)
    {
      hide Linked;
      if n != root { ParentFacts(n); }
    }

    /** The leaf n has lost a value: that is no neighbour's loss. */
    twostate lemma SameNeighbours(new n: BNode, new m: BNode)
      requires Upper(n, 1) && nodes == old(nodes) && old(Linked() && n in nodes && n.height == 0 && root != null)
      requires m in old(nodes) && m != root && (m == n || old(m.height) > 0)
      ensures m.parent == old(m.parent) && LeftOf(m) == old(LeftOf(m)) && RightOf(m) == old(RightOf(m))
      ensures LeftOf(m) != null ==> LeftOf(m) in old(nodes) && |LeftOf(m).vals| == |old(LeftOf(m).vals)|
      ensures RightOf(m) != null ==> RightOf(m) in old(nodes) && |RightOf(m).vals| == |old(RightOf(m).vals)|
      ensures |m.vals| == |old(m.vals)| - if m == n then 1 else 0
    {
      hide BNode.Rep, NodeOk, KidsOk, UpOk, Stored, Cover, RootOk, Owned, Linked;
      OldNeighbours(m);
    }

    twostate lemma FitsSame(new n: BNode, new m: BNode, new lost: int)
      requires Upper(n, 1) && nodes == old(nodes) && old(Linked() && n in nodes && n.height == 0 && root != null)
      requires m in old(nodes) && m != root && (m == n || old(m.height) > 0)
      ensures Fits(LeftOf(m), m, lost) == old(Fits(LeftOf(m), m, lost + if m == n then 1 else 0))
      ensures Fits(RightOf(m), m, lost) == old(Fits(RightOf(m), m, lost + if m == n then 1 else 0))
      ensures LeftOf(m) != null ==> old(LeftOf(m)) != null && |LeftOf(m).vals| == |old(LeftOf(m).vals)|
    {
      hide Linked;
      SameNeighbours(n, m);
    }

    /** The course from the leaf that has lost a value is that from the leaf when it was about to. */
    twostate lemma CourseTaken(new n: BNode, new position: int)
      requires Upper(n, 1) && nodes == old(nodes) && Linked() && root != null && old(Linked() && n in nodes && n.height == 0)
      ensures var h, was := Course(n, position, 0), old(Course(n, position, 1));
        && h.node in nodes && was == (if h.merges == 0 then Halt(n, position, 1, 0) else h)
        && (if h.merges == 0 then h == Halt(n, position, 0, 0) else old(h.node in nodes && h.node.height > 0))
    {
      hide Linked;
      CourseIs(n, position, 1);
      CourseNow(n, position, 0);
      if n != root {
        ParentFacts(n);
        SameNeighbours(n, n);
        FitsSame(n, n, 0);
        CourseSame(n, n.parent, position + if Fits(LeftOf(n), n, 0) then 1 + |LeftOf(n).vals| else 0, 1);
      }
    }

    /** The first part of erase and its loop: a value leaves a leaf, and the nodes above it are repaired. */
    method TakeAndRepair(it: Iter, ghost k: Key) returns (r: Iter, ghost g: Key, ghost l: BNode, ghost position: int)
      requires Linked() && Sized() && root != null && Filled({}) && Points(it, k) && it.node != null
      modifies Repr
      ensures Linked() && Sized() && Filled({}) && content == old(content) - {k} && Repr == old(Repr)
      ensures if it.node.leaf then g == k else PrevKey(k, g)
      ensures root == null ==> content == map[] && r == Iter(null, 0)
      ensures root != null ==> r.node != null && Gap(r.node, r.position, g)
      ensures l in old(nodes) && old(LosesAt(l, position, it, k)) && Halted(old(Course(l, position, 1)))
    {
      hide Linked, BNode.Rep, Filled, Gap, Sized, Course, Upper, Place, LeftOf, RightOf, Evened, Lends;
      LeavesAtZero();
      r, g := it, k;
      l, position := it.node, it.position;
      if it.node.leaf {
        TakeFromLeaf(it, k);
      } else {
        r, g := TakeFromInternal(it, k);
        l, position := r.node, r.position;
      }
      CourseTaken(l, position);
      ghost var h := Course(l, position, 0);
      TakenSizes(l, h.node);
      if h.node != root {
        SameNeighbours(l, h.node);
        LendsSame(l, h.node, |h.node.vals| - h.lost, h.position);
      }
      r := Repair(r, g);
    }

    twostate lemma TakenSizes(new n: BNode, new m: BNode)
      requires Upper(n, 1) && nodes == old(nodes) && m in old(nodes) && old(n in nodes && n.height == 0)
      ensures root == old(root) && |m.vals| == |old(m.vals)| - if m == n then 1 else 0
    {
    }

    twostate lemma LendsSame(new n: BNode, new m: BNode, new c: int, new position: int)
      requires Upper(n, 1) && nodes == old(nodes) && old(Linked() && n in nodes && n.height == 0 && root != null)
      requires m in old(nodes) && m != root && (m == n || old(m.height) > 0)
      ensures Lends(RightOf(m), c, position <= 0) == old(Lends(RightOf(m), c, position <= 0))
      ensures Lends(RightOf(m), c, position <= 0) ==> RightOf(m) != null
      ensures Lends(LeftOf(m), c, position >= c) ==> LeftOf(m) != null
      ensures Lends(LeftOf(m), c, position >= c) == old(Lends(LeftOf(m), c, position >= c))
    {
      hide Linked;
      SameNeighbours(n, m);
    }

    lemma LeavesAtZero()
      requires Linked()
      ensures forall m :: m in nodes && m.leaf ==> m.height == 0
    {
      hide Linked;
      forall m | m in nodes && m.leaf ensures m.height == 0 { NodeAt(m); }
    }

    /** erase(iterator): the value is gone, and what comes back is the value after it. */
    method Erase(it: Iter, ghost k: Key) returns (r: Iter)
      requires Linked() && Sized() && root != null && Filled({}) && Points(it, k) && it.node != null
      modifies Repr
      ensures Linked() && Sized() && Filled({}) && content == old(content) - {k} && Repr == old(Repr)
      ensures After(r, k) && (root == null <==> content == map[])
      ensures forall l, p :: l in old(nodes) && old(LosesAt(l, p, it, k)) ==> Halted(old(Course(l, p, 1)))
    {
      hide Linked, BNode.Rep, Filled, Gap, Sized, Halted, Course;
      var internalDelete := !it.node.leaf;
      OneLoses(it, k);
      ghost var g, l, p;
      r, g, l, p := TakeAndRepair(it, k);
      if root == null {
        return;
      }
      r := Settle(r, g);
      SomeKey();
      if internalDelete {
        FirstIsThere(r, g);
        r := Increment(r, g);
        NextAfterPrev(r, k, g);
      } else {
        FirstIsNext(r, k);
      }
    }

    lemma OneLoses(it: Iter, k: Key)
      requires Linked() && root != null && Filled({}) && Points(it, k) && it.node != null
      ensures forall l, m, p, q :: l in nodes && m in nodes && LosesAt(l, p, it, k) && LosesAt(m, q, it, k) ==> l == m && p == q
    {
      hide Linked;
      forall l, m, p, q | l in nodes && m in nodes && LosesAt(l, p, it, k) && LosesAt(m, q, it, k) ensures l == m && p == q {
        if !it.node.leaf { OneEndsAt(l, m, k); }
      }
    }

    /** A tree with a root has a key. */
    lemma SomeKey()
      requires Linked() && Filled({}) && root != null
      ensures content != map[]
    {
      hide Linked, BNode.Rep;
      RootBounds();
      PointsStored(Iter(root, 0), root.vals[0].key);
    }

    /** The first key from g on is g, when it is there. */
    lemma FirstIsThere(r: Iter, g: Key)
      requires g in content
      requires if IsEnd(r) then forall y :: y in content ==> y < g else exists x :: FirstFrom(g, x) && Points(r, x)
      ensures Points(r, g)
    {
    }

    lemma FirstIsNext(r: Iter, k: Key)
      requires k !in content && root != null
      requires if IsEnd(r) then forall y :: y in content ==> y < k else exists x :: FirstFrom(k, x) && Points(r, x)
      ensures After(r, k)
    {
      if !IsEnd(r) {
        var x :| FirstFrom(k, x) && Points(r, x);
        assert NextKey(k, x);
      }
    }

    /** The key after the predecessor of the absent key k is the key after k. */
    lemma NextAfterPrev(r: Iter, k: Key, g: Key)
      requires PrevKey(k, g) && k !in content && root != null
      requires if IsEnd(r) then forall y :: y in content ==> y <= g else exists x :: NextKey(g, x) && Points(r, x)
      ensures After(r, k)
    {
      if !IsEnd(r) {
        var x :| NextKey(g, x) && Points(r, x);
        assert NextKey(k, x);
      }
    }

    /** erase_unique */
    method EraseUnique(k: Key, linear: bool) returns (count: nat)
      requires Linked() && Sized() && Filled({})
      modifies Repr
      ensures Linked() && Sized() && Filled({}) && content == old(content) - {k} && Repr == old(Repr)
      ensures count == if k in old(content) then 1 else 0
    {
      hide Linked, BNode.Rep, Filled, Sized;
      var it := FindUnique(k, linear);
      if it.node == null {
        return 0;
      }
      RootIn(it.node);
      it := Erase(it, k);
      count := 1;
    }

    // ---- increment_by ----

    /** The keys from k up to z. */
    ghost function Span(k: Key, z: Bound): set<Key>
      reads `content
    {
      set y | y in content && k <= y && Under(y, z)
    }

    lemma SpanJoin(k: Key, x: Key, z: Bound)
      requires k <= x && (z.At? ==> x <= z.key)
      ensures |Span(k, z)| == |Span(k, At(x))| + |Span(x, z)|
    {
      assert Span(k, z) == Span(k, At(x)) + Span(x, z);
      assert Span(k, At(x)) !! Span(x, z);
    }

    /** From position i of a leaf to position j there are j - i keys. */
    lemma LeafSpan(n: BNode, i: nat, j: nat)
      requires Linked() && n in nodes && n.leaf && i < |n.vals| && i <= j <= |n.vals|
      ensures |Span(n.vals[i].key, HiOf(n.vals, n.hi, j))| == j - i
    {
      hide Linked, BNode.Rep;
      NodeAt(n);
      SortedSlice(n.vals, i, j);
      KeyCount(n.vals[i..j]);
      forall y | y in KeySet(n.vals[i..j]) ensures y in Span(n.vals[i].key, HiOf(n.vals, n.hi, j)) {
        SliceKey(n.vals, n.lo, n.hi, i, j, y);
        var m :| 0 <= m < |n.vals[i..j]| && n.vals[i..j][m].key == y;
        assert n.vals[i + m].key == y;
      }
      forall y | y in Span(n.vals[i].key, HiOf(n.vals, n.hi, j)) ensures y in KeySet(n.vals[i..j]) {
        KeySlice(n.vals, n.lo, n.hi, i, j, y);
      }
      assert Span(n.vals[i].key, HiOf(n.vals, n.hi, j)) == KeySet(n.vals[i..j]);
    }

    /** r is n values on from the key k. */
    ghost predicate Ahead(r: Iter, k: Key, n: int)
      reads `nodes, `content, r.node
    {
      if IsEnd(r) then |Span(k, Open)| == n else exists x :: Points(r, x) && k <= x && |Span(k, At(x))| == n
    }

    /** One step of increment_by along a leaf: past its end, or to a value in it. */
    lemma AlongLeaf(n: BNode, i: nat, j: nat, k: Key, m: int)
      requires Linked() && n in nodes && n.leaf && i < |n.vals| && i <= j <= |n.vals| && k <= n.vals[i].key
      requires |Span(k, At(n.vals[i].key))| == m
      ensures |Span(k, HiOf(n.vals, n.hi, j))| == m + (j - i)
        && (HiOf(n.vals, n.hi, j).At? ==> n.vals[i].key <= HiOf(n.vals, n.hi, j).key)
    {
      hide Linked, BNode.Rep, Span;
      NodeAt(n);
      LeafSpan(n, i, j);
      SpanJoin(k, n.vals[i].key, HiOf(n.vals, n.hi, j));
    }

    /** A single increment goes one further. */
    lemma OneFurther(a: Iter, x: Key, r: Iter, k: Key, m: int)
      requires Points(a, x) && x in content && k <= x && |Span(k, At(x))| == m
      requires if IsEnd(r) then forall y :: y in content ==> y <= x else exists z :: NextKey(x, z) && Points(r, z)
      ensures Ahead(r, k, m + 1)
    {
      if IsEnd(r) {
        SpanJoin(k, x, Open);
        assert Span(x, Open) == {x};
      } else {
        var z :| NextKey(x, z) && Points(r, z);
        SpanJoin(k, x, At(z));
        assert Span(x, At(z)) == {x};
      }
    }

    /** No more values follow the end. */
    lemma AheadMore(r: Iter, k: Key, m: int, n: int)
      requires Ahead(r, k, m) && m < n <= |Span(k, Open)|
      ensures !IsEnd(r)
    {
    }

    /** increment_by, for any count up to the distance to the end. */
    method IncrementBy(it: Iter, n: nat, ghost k: Key) returns (r: Iter)
      requires Linked() && Filled({}) && Points(it, k) && n <= |Span(k, Open)|
      ensures Ahead(r, k, n)
    {
      hide Linked, BNode.Rep, Ahead, Span;
      r := it;
      var count: int := n;
      StartAhead(it, k);
      while count > 0
        invariant 0 <= count <= n && Ahead(r, k, n - count)
      {
        AheadMore(r, k, n - count, n);
        ghost var x := AheadKey(r, k, n - count);
        PointsStored(r, x);
        NodeAt(r.node);
        if r.node.leaf {
          var rest := r.node.count - r.position;
          ghost var i := r.position;
          ghost var j := i + if rest < count then rest else count;
          AlongLeaf(r.node, i, j, k, n - count);
          r := Iter(r.node, r.position + if rest < count then rest else count);
          count := count - rest;
          if r.position < r.node.count {
            AheadHere(r, k, n);
            return;
          }
          ghost var leaf := r.node;
          r := NextAfterLeaf(r);
          AheadBound(r, leaf, k, n - count);
        } else {
          count := count - 1;
          ghost var was := r;
          r := Increment(r, x);
          OneFurther(was, x, r, k, n - count - 1);
        }
      }
    }

    lemma StartAhead(it: Iter, k: Key)
      requires Points(it, k)
      ensures Ahead(it, k, 0)
    {
      NotAtEnd(it, k);
      assert Span(k, At(k)) == {};
    }

    ghost function AheadKey(r: Iter, k: Key, m: int): (x: Key)
      requires Ahead(r, k, m) && !IsEnd(r)
      reads `nodes, `content, r.node
      ensures Points(r, x) && k <= x && |Span(k, At(x))| == m
    {
      KeyOf(r)
    }

    lemma AheadHere(r: Iter, k: Key, m: int)
      requires r.node != null && r.node in nodes && 0 <= r.position < |r.node.vals| && k <= r.node.vals[r.position].key
      requires |Span(k, At(r.node.vals[r.position].key))| == m
      ensures Ahead(r, k, m)
    {
      assert Points(r, r.node.vals[r.position].key);
    }

    lemma AheadBound(r: Iter, n: BNode, k: Key, m: int)
      requires n in nodes && n.leaf && |Span(k, n.hi)| == m && (n.hi.At? ==> k <= n.hi.key)
      requires if n.hi == Open then r == Iter(n, |n.vals|) else Points(r, n.hi.key)
      ensures Ahead(r, k, m)
    {
    }

    /** There is one last leaf. */
    lemma OneEnd(a: Iter, b: Iter)
      requires Linked() && root != null && IsEnd(a) && IsEnd(b)
      ensures a == b
    {
      hide Linked;
      var la, lb := if a.node.lo.At? then a.node.lo.key else 0.0, if b.node.lo.At? then b.node.lo.key else 0.0;
      var k := if la < lb then lb + 1.0 else la + 1.0;
      NodeAt(a.node);
      NodeAt(b.node);
      OneSpans(a.node, b.node, k);
    }

    /** A further key has more keys before it. */
    lemma SpanGrows(k: Key, x: Key, z: Bound)
      requires k <= x && x in content && Under(x, z)
      ensures |Span(k, At(x))| < |Span(k, z)|
    {
      SpanJoin(k, x, z);
      assert x in Span(x, z);
    }

    /** There is one place n values on from k. */
    lemma AheadUnique(a: Iter, b: Iter, k: Key, n: int)
      requires Linked() && root != null && Ahead(a, k, n) && Ahead(b, k, n)
      ensures a == b
    {
      hide Linked, BNode.Rep, Span;
      if IsEnd(a) && IsEnd(b) {
        OneEnd(a, b);
      } else if IsEnd(a) {
        AheadKeyMore(b, k, n);
      } else if IsEnd(b) {
        AheadKeyMore(a, k, n);
      } else {
        var x, y := AheadKey(a, k, n), AheadKey(b, k, n);
        PointsStored(a, x);
        PointsStored(b, y);
        if x < y { SpanGrows(k, x, At(y)); }
        if y < x { SpanGrows(k, y, At(x)); }
        PointsSame(a, b, x);
      }
    }

    lemma AheadKeyMore(b: Iter, k: Key, n: int)
      requires Linked() && Ahead(b, k, n) && !IsEnd(b)
      ensures n < |Span(k, Open)|
    {
      hide Linked, BNode.Rep, Span;
      var y := AheadKey(b, k, n);
      PointsStored(b, y);
      SpanGrows(k, y, Open);
    }

    /** n times ++ */
    method Increments(it: Iter, n: nat, ghost k: Key) returns (r: Iter)
      requires Linked() && Filled({}) && Points(it, k) && n <= |Span(k, Open)|
      ensures Ahead(r, k, n)
    {
      hide Linked, BNode.Rep, Ahead, Span;
      r := it;
      StartAhead(it, k);
      for i := 0 to n
        invariant Ahead(r, k, i)
      {
        AheadMore(r, k, i, n);
        ghost var was, x := r, AheadKey(r, k, i);
        PointsStored(r, x);
        r := Increment(r, x);
        OneFurther(was, x, r, k, i);
      }
    }

    /** increment_by(n) is n single increments. */
    method IncrementByIsIncrements(it: Iter, n: nat, ghost k: Key) returns (a: Iter, b: Iter)
      requires Linked() && Filled({}) && Points(it, k) && n <= |Span(k, Open)|
      ensures a == b
    {
      hide Linked, BNode.Rep, Span, Points;
      PointsRoot(it, k);
      a := IncrementBy(it, n, k);
      b := Increments(it, n, k);
      AheadUnique(a, b, k, n);
    }

    lemma PointsRoot(it: Iter, k: Key)
      requires Linked() && Points(it, k)
      ensures root != null
    {
      hide Linked;
      RootIn(it.node);
    }

    // ---- Range erase ----

    /** std::distance, as a count of increments, between values or to the end. */
    method Distance(begin: Iter, end: Iter, ghost k: Key, ghost z: Bound) returns (n: nat)
      requires Linked() && Filled({}) && IsRange(begin, end, k, z)
      ensures n == |InRange(begin, end, k, z)|
    {
      hide Linked, BNode.Rep, Span, Ahead;
      var it := begin;
      n := 0;
      if begin != end {
        StartAhead(it, k);
        RootIn(begin.node);
      }
      while it != end
        invariant if begin == end then it == end && n == 0 else Ahead(it, k, n) && n <= |Span(k, z)|
        decreases |Span(k, z)| - n
      {
        NotThere(it, end, k, z, n);
        ghost var was, x := it, AheadKey(it, k, n);
        PointsStored(it, x);
        it := Increment(it, x);
        OneFurther(was, x, it, k, n);
        n := n + 1;
      }
      if begin != end { Arrived(it, end, k, z, n); }
    }

    /** An empty range at any iterator, or a range from the key k up to z, the end for Open. */
    ghost predicate IsRange(begin: Iter, end: Iter, k: Key, z: Bound)
      reads `nodes, begin.node, end.node
    {
      begin == end || (Points(begin, k) && if z == Open then IsEnd(end) else Points(end, z.key) && k <= z.key)
    }

    ghost function InRange(begin: Iter, end: Iter, k: Key, z: Bound): set<Key>
      reads `content
    {
      if begin == end then {} else Span(k, z)
    }

    /** The end, when there is one, is where it was counted to. */
    lemma Arrived(it: Iter, end: Iter, k: Key, z: Bound, n: int)
      requires Linked() && Ahead(it, k, n) && it == end && (if z == Open then IsEnd(end) else Points(end, z.key))
      ensures n == |Span(k, z)|
    {
      hide Linked, BNode.Rep, Span;
      if z != Open { NotAtEnd(end, z.key); }
    }

    lemma NotThere(it: Iter, end: Iter, k: Key, z: Bound, n: int)
      requires Linked() && root != null && Ahead(it, k, n) && it != end && n <= |Span(k, z)|
      requires if z == Open then IsEnd(end) else Points(end, z.key) && k <= z.key
      ensures !IsEnd(it) && n < |Span(k, z)|
    {
      hide Linked, BNode.Rep, Span;
      if z == Open {
        if IsEnd(it) { OneEnd(it, end); } else { AheadKeyMore(it, k, n); }
      } else {
        NotAtEnd(end, z.key);
        PointsStored(end, z.key);
        SpanGrows(k, z.key, Open);
        if !IsEnd(it) {
          var x := AheadKey(it, k, n);
          PointsStored(it, x);
          if x == z.key { PointsSame(it, end, x); }
          if z.key < x { SpanGrows(k, z.key, At(x)); } else { SpanGrows(k, x, z); }
        }
      }
    }

    /** What every operation keeps. */
    ghost predicate Whole()
      reads this, Repr
    {
      Linked() && (root != null ==> root in Repr) && Sized() && Filled({})
    }

    /** r is at the first key from k on, if there is one. */
    ghost predicate From(r: Iter, k: Key)
      reads this, r.node
    {
      if root == null || IsEnd(r) then forall y :: y in content ==> y < k else exists x :: FirstFrom(k, x) && Points(r, x)
    }

    /** erase(begin, end): the keys of the range are gone. The iterator end is not looked at again once they are counted. */
    method EraseRange(begin: Iter, end: Iter, ghost k: Key, ghost z: Bound) returns (count: nat)
      requires Linked() && Sized() && Filled({}) && IsRange(begin, end, k, z)
      modifies Repr
      ensures Linked() && Sized() && Filled({}) && Repr == old(Repr)
      ensures content == old(content) - old(InRange(begin, end, k, z)) && count == |old(InRange(begin, end, k, z))|
    {
      hide Linked, BNode.Rep, Filled, Sized;
      count := Distance(begin, end, k, z);
      var it := begin;
      ghost var all, gone := InRange(begin, end, k, z), {};
      if begin != end { FromStart(it, k); }
      if root != null { RootOwned(); }
      for i := 0 to count
        invariant Whole() && Repr == old(Repr)
        invariant content == old(content) - gone && gone <= all && |gone| == i && (begin != end ==> From(it, k))
      {
        ghost var x := NextInRange(it, old(content), all, gone, k, z);
        gone := gone + {x};
        it := Erase(it, x);
        AfterFrom(it, k, x);
        if root != null { RootOwned(); }
      }
      SameSize(gone, all);
    }

    /** While not all of the range is gone, what comes next is in it. */
    lemma NextInRange(it: Iter, was: map<Key, Data>, all: set<Key>, gone: set<Key>, k: Key, z: Bound) returns (x: Key)
      requires Linked() && content == was - gone && gone <= all && |gone| < |all| && From(it, k)
      requires all == set y | y in was && k <= y && Under(y, z)
      ensures root != null && it.node != null && Points(it, x) && x in all && FirstFrom(k, x) && x !in gone
    {
      hide Linked;
      if forall y :: y in all ==> y in gone {
        SameSets(all, gone);
      }
      var y :| y in all && y !in gone;
      assert y in content;
      if root == null { EmptyTree(); }
      x :| FirstFrom(k, x) && Points(it, x);
    }

    lemma AfterFrom(r: Iter, k: Key, x: Key)
      requires After(r, x) && (forall y :: y in content && k <= y ==> x < y) && k <= x && (root == null ==> content == map[])
      ensures From(r, k)
    {
      if root != null && !IsEnd(r) {
        var z :| NextKey(x, z) && Points(r, z);
        assert FirstFrom(k, z);
      }
    }

    lemma FromStart(it: Iter, k: Key)
      requires Linked() && Points(it, k)
      ensures From(it, k)
    {
      hide Linked;
      PointsStored(it, k);
      RootIn(it.node);
      NotAtEnd(it, k);
      assert FirstFrom(k, k);
    }

    // ---- Insertion with a hint ----

    /** It points at a value or is the end. */
    ghost predicate Valid(it: Iter)
      reads `nodes, it.node
    {
      IsEnd(it) || Points(it, KeyOf(it))
    }

    /** A bound lies below what comes after all lower keys. */
    lemma HintRoom(it: Iter, k: Key)
      requires Linked() && root != null && Filled({}) && Points(it, KeyOf(it)) && JustBefore(KeyOf(it), k)
      ensures Room(it, k) && k !in content
    {
      hide Linked, BNode.Rep;
      NodeAt(it.node);
      var x := KeyOf(it);
      PointsStored(it, x);
      if it.node.leaf {
        if it.position == 0 {
          if it.node.lo.At? {
            BoundKey(it.node);
            assert it.node.lo.key < x;
          }
        } else {
          PointsStored(Iter(it.node, it.position - 1), it.node.vals[it.position - 1].key);
          assert it.node.vals[it.position - 1].key < x;
        }
        assert Under(x, HiOf(it.node.vals, it.node.hi, it.position)) || HiOf(it.node.vals, it.node.hi, it.position) == At(x);
      }
    }

    lemma EndRoom(it: Iter, k: Key)
      requires Linked() && root != null && Filled({}) && IsEnd(it) && forall y :: y in content ==> y < k
      ensures Room(it, k) && k !in content
    {
      hide Linked, BNode.Rep;
      NodeAt(it.node);
      PointsStored(Iter(it.node, it.position - 1), it.node.vals[it.position - 1].key);
    }

    /** key() */
    method ReadKey(it: Iter) returns (k: Key)
      requires Linked() && Points(it, KeyOf(it))
      ensures k == KeyOf(it)
    {
      hide Linked, BNode.ValsRep;
      NodeAt(it.node);
      SlotOk(it.node, it.position);
      k := it.node.values[it.position].key;
    }

    /** Whether a value with the key k may be put right before the hint; the hint is the end or has a larger key. */
    method FitsBefore(position: Iter, k: Key) returns (fits: bool)
      requires Linked() && Filled({}) && root != null && Valid(position) && (IsEnd(position) || k < KeyOf(position))
      ensures fits ==> Room(position, k) && k !in content
    {
      hide Linked, BNode.Rep, Room, Filled;
      var begin := Begin();
      var end := End();
      if position == end {
        var last := DecrementEnd(position);
        var lastKey := ReadKey(last);
        if lastKey < k {
          EndRoom(position, k);
          return true;
        }
        return false;
      }
      HintPoints(position, end);
      PointsStored(position, KeyOf(position));
      if position == begin {
        HintRoom(position, k);
        return true;
      }
      var prev := Decrement(position, KeyOf(position));
      HintNotFirst(position, begin);
      var prevKey := ReadKey(prev);
      if prevKey < k {
        HintRoom(position, k);
        return true;
      }
      return false;
    }

    lemma HintPoints(it: Iter, end: Iter)
      requires Linked() && root != null && Valid(it) && IsEnd(end) && it != end
      ensures Points(it, KeyOf(it)) && !IsEnd(it)
    {
      hide Linked;
      if IsEnd(it) { OneEnd(it, end); }
    }

    lemma HintNotFirst(it: Iter, begin: Iter)
      requires Linked() && Points(it, KeyOf(it)) && it != begin && exists x :: Points(begin, x) && x in content && forall y :: y in content ==> x <= y
      ensures exists y :: y in content && y < KeyOf(it)
    {
      hide Linked;
      var x :| Points(begin, x) && x in content && forall y :: y in content ==> x <= y;
      PointsStored(it, KeyOf(it));
      if x == KeyOf(it) { PointsSame(it, begin, x); }
    }

    /** insert_unique with a hint: the value comes in as without it. */
    method InsertHinted(position: Iter, e: Entry, linear: bool) returns (r: Iter)
      requires Linked() && Sized() && Filled({}) && (root != null ==> Valid(position))
      modifies Repr
      ensures Linked() && Sized() && Filled({}) && root != null && Points(r, e.key)
      ensures content == if e.key in old(content) then old(content) else old(content)[e.key := e.data]
      ensures old(Repr) <= Repr && fresh(Repr - old(Repr)) && r.node != null
      ensures old(root) != null && e.key !in old(content) ==> Gained(r.node, e.key)
      ensures (e.key in old(content) ==> nodes == old(nodes)) && (old(Snug(|content|)) ==> Snug(|content|))
    {
      hide Linked, BNode.Rep, Room, Filled, Sized, Need, Snug, SlotIn;
      if root != null {
        var place, fits := HintedPlace(position, e.key);
        forall m: BNode, p: int | m in old(nodes) && m.leaf
          ensures Slot(m, p, e.key) == old(Slot(m, p, e.key)) && Need(m, p) == old(Need(m, p)) {
        }
        if fits {
          r := InternalInsert(place, e);
          return;
        }
        if place.node != null {
          return place;
        }
      }
      var inserted;
      r, inserted := InsertUnique(e, linear);
    }

    /** Where the hint leads: to a place for the absent key, to the key itself, or nowhere. */
    method HintedPlace(position: Iter, k: Key) returns (place: Iter, fits: bool)
      requires Linked() && Filled({}) && root != null && Valid(position)
      ensures fits ==> Room(place, k) && k !in content
      ensures !fits && place.node != null ==> Points(place, k) && k in content
    {
      hide Linked, BNode.Rep, Room, Filled;
      var end := End();
      var key: Key;
      if position != end {
        HintPoints(position, end);
        PointsStored(position, KeyOf(position));
        key := ReadKey(position);
      }
      if position == end || k < key {
        fits := FitsBefore(position, k);
        if fits { return position, true; }
      } else if key < k {
        var next := Increment(position, key);
        fits := FitsAfter(position, next, k);
        if fits { return next, true; }
      } else {
        return position, false;
      }
      return Iter(null, 0), false;
    }

    /** Whether a value with the key k, larger than the hint's, may be put right before the value after the hint. */
    method FitsAfter(position: Iter, next: Iter, k: Key) returns (fits: bool)
      requires Linked() && Filled({}) && root != null && Points(position, KeyOf(position)) && KeyOf(position) < k
      requires if IsEnd(next) then forall y :: y in content ==> y <= KeyOf(position) else exists x :: NextKey(KeyOf(position), x) && Points(next, x)
      ensures fits ==> Room(next, k) && k !in content
    {
      hide Linked, BNode.Rep, Room, Filled;
      var end := End();
      if next == end {
        EndRoom(next, k);
        return true;
      }
      HintPoints(next, end);
      var nextKey := ReadKey(next);
      if k < nextKey {
        HintRoom(next, k);
        return true;
      }
      return false;
    }

    // ---- Traversal ----

    /** vs holds the values below z, in order. */
    ghost predicate Visited(vs: seq<Entry>, z: Bound)
      reads `content
    {
      && Sorted(vs) && (forall i :: 0 <= i < |vs| ==> vs[i].key in content && vs[i].data == content[vs[i].key] && Under(vs[i].key, z))
      && forall y :: y in content && Under(y, z) ==> y in KeySet(vs)
    }

    /** it is at the first key from z on: the end for Open. */
    ghost predicate Stands(it: Iter, z: Bound)
      reads `nodes, `content, it.node
    {
      if z == Open then IsEnd(it) else Points(it, z.key) && z.key in content
    }

    lemma VisitOne(vs: seq<Entry>, e: Entry, z: Bound)
      requires Visited(vs, At(e.key)) && e.key in content && content[e.key] == e.data
      requires if z == Open then forall y :: y in content ==> y <= e.key else NextKey(e.key, z.key)
      ensures Visited(vs + [e], z)
    {
      var ws := vs + [e];
      KeySetConcat(vs, [e]);
      KeySetOne(e);
      forall i | 0 <= i < |ws| ensures ws[i].key in content && ws[i].data == content[ws[i].key] && Under(ws[i].key, z) {
        if i < |vs| { assert ws[i] == vs[i]; }
      }
    }

    lemma SlotStored(n: BNode, i: nat)
      requires Linked() && n in nodes && i < |n.vals|
      ensures n.vals[i].key in content && content[n.vals[i].key] == n.vals[i].data
    {
      hide Linked;
      NodeAt(n);
    }

    /** What Increment leads to, as a bound. */
    lemma StandsNext(r: Iter, x: Key) returns (z: Bound)
      requires if IsEnd(r) then forall y :: y in content ==> y <= x else exists k :: NextKey(x, k) && Points(r, k)
      ensures Stands(r, z) && (if z == Open then forall y :: y in content ==> y <= x else NextKey(x, z.key))
    {
      if IsEnd(r) {
        z := Open;
      } else {
        var k :| NextKey(x, k) && Points(r, k);
        z := At(k);
      }
    }

    lemma SpanLess(x: Key, z: Bound)
      requires x in content && z.At? && NextKey(x, z.key)
      ensures |Span(z.key, Open)| < |Span(x, Open)|
    {
      SpanJoin(x, z.key, Open);
      assert x in Span(x, z);
    }

    /** ++ from begin() to end(): every value once, in order. */
    method Traverse() returns (vs: seq<Entry>)
      requires Linked() && Filled({})
      ensures Visited(vs, Open)
    {
      hide Linked, BNode.Rep, Visited, Span, Filled;
      vs := [];
      if root == null {
        EmptyTree();
        NoneVisited(Open);
        return;
      }
      var it := Begin();
      var end := End();
      ghost var x :| Points(it, x) && x in content && forall y :: y in content ==> x <= y;
      ghost var z := At(x);
      NoneVisited(z);
      while it != end
        invariant Stands(it, z) && Visited(vs, z)
        decreases if z.At? then 1 + |Span(z.key, Open)| else 0
      {
        StandsPoints(it, end, z);
        NodeAt(it.node);
        SlotOk(it.node, it.position);
        SlotStored(it.node, it.position);
        x := z.key;
        var v := it.node.values[it.position];
        it := Increment(it, x);
        z := StandsNext(it, x);
        if z.At? { SpanLess(x, z); }
        VisitOne(vs, v, z);
        vs := vs + [v];
      }
      StandsEnd(it, z);
    }

    lemma NoneVisited(z: Bound)
      requires forall y :: y in content ==> !Under(y, z)
      ensures Visited([], z)
    {
    }

    lemma StandsPoints(it: Iter, end: Iter, z: Bound)
      requires Linked() && root != null && Stands(it, z) && IsEnd(end) && it != end
      ensures z.At? && Points(it, z.key)
    {
      hide Linked;
      if z == Open { OneEnd(it, end); }
    }

    lemma StandsEnd(it: Iter, z: Bound)
      requires Stands(it, z) && IsEnd(it)
      ensures z == Open
    {
    }

    lemma NewTree()
      requires Linked() && root == null && content == map[]
      ensures Whole()
    {
      hide NodeOk, KidsOk, UpOk, Stored, Cover;
    }

    lemma VisitedAre(vs: seq<Entry>)
      requires Visited(vs, Open)
      ensures Sorted(vs) && forall e :: e in vs <==> e.key in content && content[e.key] == e.data
    {
      forall e ensures e in vs <==> e.key in content && content[e.key] == e.data {
        if e.key in content && content[e.key] == e.data {
          var i :| 0 <= i < |vs| && vs[i].key == e.key;
          assert vs[i] == e;
        }
      }
    }

    /** The steps from a node up to the root. */
    ghost function Depth(n: BNode): nat
      reads this, Repr
      requires Linked() && root != null && n in nodes
      decreases if root != null then root.height - n.height else 0
    {
      if n == root then 0 else
        ParentFacts(n);
        1 + Depth(n.parent)
    }

    /** All leaves are equally deep. */
    lemma {:induction false} LeavesLevel(n: BNode)
      requires Linked() && root != null && n in nodes
      ensures Depth(n) + n.height == root.height && (n.leaf ==> Depth(n) == root.height)
      decreases root.height - n.height
    {
      hide Linked;
      NodeAt(n);
      if n != root {
        ParentFacts(n);
        LeavesLevel(n.parent);
      }
    }
  }
}
