/** Runs of the iterators over a whole tree: traversal, comparison and range erase. */
module Iteration {
  import opened Bytes
  import opened Tries
  import opened Nodes
  import opened RadixTrees
  import opened Trees
  import P = PrefixTrees
  import A = ArTrees

  /** The keys that are not below s. */
  ghost function From(keys: set<Str>, s: Str): set<Str> {
    set k | k in keys && !Less(k, s)
  }

  /** The keys that an iterator at node has yet to visit. */
  ghost function Rest(t: RadixTree, node: Node): set<Str>
    reads t
  {
    if node == t.endLeaf then {} else From(t.trie.keys, node.full)
  }

  ghost predicate SameSize(keys: set<Str>, length: nat) {
    forall k :: k in keys ==> |k| == length
  }

  lemma RestOfMin(tr: Trie, length: nat, r: Str)
    requires tr.WF(length) && IsMin(tr, tr.root, r)
    ensures From(tr.keys, r) == tr.keys
  {
    forall k | k in tr.keys ensures !Less(k, r) {
      assert tr.root <= k;
      LessIrreflexive(k);
      if k != r && Less(k, r) { LessTransitive(k, r, k); }
    }
  }

  lemma RestOfNext(keys: set<Str>, length: nat, k: Str, r: Str)
    requires SameSize(keys, length) && k in keys && IsNext(keys, k, r)
    ensures From(keys, r) == From(keys, k) - {k} && k in From(keys, k)
  {
    LessIrreflexive(k);
    forall j | j in keys ensures Less(j, r) <==> Less(j, k) || j == k {
      if Less(j, k) {
        LessTransitive(j, k, r);
      } else if j != k {
        LessTotal(j, k);
        if j != r { LessAsymmetric(r, j); } else { LessIrreflexive(r); }
      }
    }
  }

  lemma RestOfLast(keys: set<Str>, length: nat, k: Str)
    requires SameSize(keys, length) && k in keys && forall j :: j in keys ==> !Less(k, j)
    ensures From(keys, k) == {k}
  {
    LessIrreflexive(k);
    forall j | j in keys && !Less(j, k) ensures j == k {
      if j != k { LessTotal(j, k); }
    }
  }

  /** What an iterator at the leaf node stands for. */
  lemma AtLeaf(t: RadixTree, node: Node)
    requires Sound(t) && t.Position(node) && node != t.endLeaf
    ensures t.root != null && node.key == node.full && node.full in t.trie.keys && node.full in t.at && t.at[node.full] == node
    ensures SameSize(t.trie.keys, t.length) && |node.full| == t.length
  {
    hide RadixTree.Wired, Node.Rep, Trie.WF, Sound;
    SoundParts(t);
    t.LiveKind(node);
    Sizes(t);
  }

  lemma Sizes(t: RadixTree)
    requires Sound(t)
    ensures SameSize(t.trie.keys, t.length)
  {
    hide RadixTree.Wired, Node.Rep, Trie.WF, Sound;
    SoundParts(t);
    if t.root == null {
      EmptyKeys(t);
    } else {
      forall k | k in t.trie.keys ensures |k| == t.length { t.KeySize(k); }
    }
  }

  /** begin(): everything is yet to be visited. */
  method First(t: RadixTree) returns (r: Node)
    requires Sound(t)
    ensures t.Position(r) && Rest(t, r) == t.trie.keys
  {
    hide RadixTree.Wired, Node.Rep, Trie.WF, Sound, From, IsMin;
    SoundParts(t);
    r := t.Begin();
    if r == t.endLeaf {
      EmptyKeys(t);
    } else {
      t.WiredTrie();
      RestOfMin(t.trie, t.length, r.full);
    }
  }

  /** ++ visits the leaf it leaves and nothing else. */
  method Advance(t: RadixTree, node: Node) returns (r: Node)
    requires Sound(t) && t.Position(node) && node != t.endLeaf
    ensures t.Position(r) && node.full in Rest(t, node) && Rest(t, r) == Rest(t, node) - {node.full}
    ensures r != t.endLeaf ==> Less(node.full, r.full)
  {
    hide RadixTree.Wired, Node.Rep, Trie.WF, Sound, From, IsNext;
    SoundParts(t);
    AtLeaf(t, node);
    r := t.Increment(node);
    if r == t.endLeaf {
      RestOfLast(t.trie.keys, t.length, node.full);
    } else {
      RestOfNext(t.trie.keys, t.length, node.full, r.full);
      NextAbove(t.trie.keys, node.full, r.full);
    }
  }

  lemma NextAbove(keys: set<Str>, k: Str, r: Str)
    requires IsNext(keys, k, r)
    ensures Less(k, r)
  {
  }

  /** Strictly increasing byte order. */
  ghost predicate Ascending(ks: seq<Str>) {
    forall i, j :: 0 <= i < j < |ks| ==> Less(ks[i], ks[j])
  }

  lemma AscendingAppend(ks: seq<Str>, k: Str)
    requires Ascending(ks) && forall i :: 0 <= i < |ks| ==> Less(ks[i], k)
    ensures Ascending(ks + [k])
  {
  }

  lemma AllBelow(ks: seq<Str>, k: Str, r: Str)
    requires |k| == |r| && Less(k, r) && forall i :: 0 <= i < |ks| ==> |ks[i]| == |k| && Less(ks[i], k)
    ensures forall i :: 0 <= i < |ks| + 1 ==> Less((ks + [k])[i], r)
  {
    forall i | 0 <= i < |ks| ensures Less(ks[i], r) {
      LessTransitive(ks[i], k, r);
    }
  }

  /** A run of ++ from begin() to end() visits every key exactly once, in strictly increasing order. */
  method Traverse(t: RadixTree) returns (ks: seq<Str>)
    requires Sound(t)
    ensures Ascending(ks) && (forall k :: k in ks <==> k in t.trie.keys) && |ks| == t.count
  {
    hide RadixTree.Wired, Node.Rep, Trie.WF, Sound, From, Less;
    ks := [];
    var it := First(t);
    while it != t.endLeaf
      invariant t.Position(it) && Rest(t, it) <= t.trie.keys && Ascending(ks)
      invariant |ks| + |Rest(t, it)| == |t.trie.keys|
      invariant forall k :: k in ks <==> k in t.trie.keys && k !in Rest(t, it)
      invariant it != t.endLeaf ==> forall i :: 0 <= i < |ks| ==> Less(ks[i], it.full)
      decreases Rest(t, it)
    {
      AtLeaf(t, it);
      AscendingAppend(ks, it.key);
      var next := Advance(t, it);
      if next != t.endLeaf {
        AtLeaf(t, next);
        AllBelow(ks, it.key, next.full);
      }
      ks := ks + [it.key];
      it := next;
    }
    SoundParts(t);
  }

  /** The greatest key below the least key above k is k. */
  lemma PrevOfNext(keys: set<Str>, length: nat, k: Str, r: Str, q: Str)
    requires SameSize(keys, length) && k in keys && IsNext(keys, k, r)
    ensures IsPrev(keys, r, q) ==> q == k
    ensures exists j :: j in keys && Less(j, r)
  {
    if IsPrev(keys, r, q) && q != k {
      assert Less(k, q);
      LessTransitive(q, r, q);
      LessIrreflexive(q);
    }
  }

  lemma MaxOfRest(tr: Trie, length: nat, k: Str, q: Str)
    requires tr.WF(length) && SameSize(tr.keys, length) && k in tr.keys && IsMax(tr, tr.root, q)
    requires forall j :: j in tr.keys ==> !Less(k, j)
    ensures q == k
  {
    assert tr.root <= k;
  }

  /** -- undoes ++, also when ++ reached the end. */
  method IncrementThenDecrement(t: RadixTree, node: Node) returns (r: Node)
    requires Sound(t) && t.Position(node) && node != t.endLeaf
    ensures r == node
  {
    hide RadixTree.Wired, Node.Rep, Trie.WF, Sound, Less, IsPrev, IsNext, IsMax;
    SoundParts(t);
    AtLeaf(t, node);
    t.WiredTrie();
    var next := t.Increment(node);
    r := t.Decrement(next);
    AtLeaf(t, r);
    if next == t.endLeaf {
      MaxOfRest(t.trie, t.length, node.full, r.full);
    } else {
      PrevOfNext(t.trie.keys, t.length, node.full, next.full, r.full);
    }
  }

  // ---- Comparison ----

  /** operator==: equal sizes, and std::equal over both ranges. */
  method Equal(x: RadixTree, y: RadixTree) returns (eq: bool)
    requires Sound(x) && Sound(y) && x.length == y.length
    ensures eq <==> Contents(x) == Contents(y)
  {
    hide RadixTree.Wired, Node.Rep, Trie.WF, Sound, From, Less, Contents;
    SoundParts(x);
    SoundParts(y);
    if x.count != y.count {
      SizesDiffer(x, y);
      return false;
    }
    var i := First(x);
    var j := First(y);
    while i != x.endLeaf
      invariant x.Position(i) && y.Position(j) && Rest(x, i) <= x.trie.keys && Rest(y, j) <= y.trie.keys
      invariant |Rest(x, i)| == |Rest(y, j)| && SameBefore(x, i, y, j)
      decreases Rest(x, i)
    {
      AtLeaf(x, i);
      NotBothEnd(x, i, y, j);
      AtLeaf(y, j);
      if i.key != j.key || i.value != j.value {
        Differ(x, i, y, j);
        return false;
      }
      var i1 := Advance(x, i);
      var j1 := Advance(y, j);
      Extend(x, i, i1, y, j, j1);
      i, j := i1, j1;
    }
    SameAll(x, i, y, j);
    return true;
  }

  /** The visited parts hold the same keys with the same values. */
  ghost predicate SameBefore(x: RadixTree, i: Node, y: RadixTree, j: Node)
    reads x, y
  {
    && x.trie.keys - Rest(x, i) == y.trie.keys - Rest(y, j)
    && forall k :: k in x.trie.keys && k !in Rest(x, i) ==> k in x.at && k in y.at && x.at[k].value == y.at[k].value
  }

  lemma SizesDiffer(x: RadixTree, y: RadixTree)
    requires Sound(x) && Sound(y)
    ensures x.count != y.count ==> Contents(x) != Contents(y)
  {
    hide RadixTree.Wired, Node.Rep, Trie.WF, Sound;
    SoundParts(x);
    SoundParts(y);
    ContentsKeys(x);
    ContentsKeys(y);
  }

  lemma NotBothEnd(x: RadixTree, i: Node, y: RadixTree, j: Node)
    requires i != x.endLeaf && |Rest(x, i)| == |Rest(y, j)| && i.full in x.trie.keys
    ensures j != y.endLeaf
  {
    LessIrreflexive(i.full);
    assert i.full in Rest(x, i);
  }

  lemma Extend(x: RadixTree, i: Node, i1: Node, y: RadixTree, j: Node, j1: Node)
    requires SameBefore(x, i, y, j) && i.full == j.full && i.full in x.at && j.full in y.at && i.full in x.trie.keys
      && j.full in y.trie.keys
    requires x.at[i.full].value == y.at[j.full].value
    requires i.full in Rest(x, i) && j.full in Rest(y, j)
    requires Rest(x, i1) == Rest(x, i) - {i.full} && Rest(y, j1) == Rest(y, j) - {j.full}
    ensures SameBefore(x, i1, y, j1)
    ensures |Rest(x, i)| == |Rest(y, j)| ==> |Rest(x, i1)| == |Rest(y, j1)|
  {
    hide From;
    assert x.trie.keys - Rest(x, i1) == x.trie.keys - Rest(x, i) + {i.full};
    assert y.trie.keys - Rest(y, j1) == y.trie.keys - Rest(y, j) + {j.full};
  }

  /** Where the ranges first differ the maps do: the lower key is missing from the other tree. */
  lemma Differ(x: RadixTree, i: Node, y: RadixTree, j: Node)
    requires Sound(x) && Sound(y) && SameBefore(x, i, y, j) && x.length == y.length
    requires i != x.endLeaf && j != y.endLeaf && |i.full| == |j.full| && i.full in x.trie.keys && j.full in y.trie.keys
    requires i.full in x.at && j.full in y.at
    requires i.full != j.full || x.at[i.full].value != y.at[j.full].value
    ensures Contents(x) != Contents(y)
  {
    hide RadixTree.Wired, Node.Rep, Trie.WF, Sound, Less;
    ContentsKeys(x);
    ContentsKeys(y);
    if i.full == j.full {
      assert Contents(x)[i.full] != Contents(y)[j.full];
    } else {
      LessTotal(i.full, j.full);
      LessIrreflexive(i.full);
      LessIrreflexive(j.full);
      assert i.full !in x.trie.keys - Rest(x, i) && j.full !in y.trie.keys - Rest(y, j);
    }
  }

  lemma SameAll(x: RadixTree, i: Node, y: RadixTree, j: Node)
    requires SameBefore(x, i, y, j) && |Rest(x, i)| == |Rest(y, j)| && i == x.endLeaf
    requires Rest(y, j) <= y.trie.keys
    ensures Contents(x) == Contents(y)
  {
    hide RadixTree.Wired, Node.Rep, Trie.WF, Sound, From;
    assert Rest(x, i) == {};
    assert |Rest(y, j)| == 0;
    assert Rest(y, j) == {};
    assert x.trie.keys - {} == x.trie.keys && y.trie.keys - {} == y.trie.keys;
    assert x.trie.keys == y.trie.keys;
  }

  // ---- Range erase ----

  lemma FromWithout(keys: set<Str>, s: Str, k: Str)
    ensures From(keys - {k}, s) == From(keys, s) - {k}
  {
  }

  /** What radix_map keeps its pairs in: the conditional type is a prefix tree for long keys and an ar_tree for short ones. */
  ghost predicate Valid(t: RadixTree, compressed: bool)
    reads t, t.Repr
  {
    if compressed then P.Valid(t) else A.Valid(t)
  }

  lemma ValidIsSound(t: RadixTree, compressed: bool)
    requires Valid(t, compressed)
    ensures Sound(t)
  {
  }

  /** erase(iterator) of the tree in use. */
  method EraseAt(t: RadixTree, leaf: Node, compressed: bool)
    requires Valid(t, compressed) && t.Position(leaf) && leaf != t.endLeaf
    modifies t.Repr
    ensures Valid(t, compressed) && fresh(t.Repr - old(t.Repr)) && Removed(t, leaf.key)
    ensures Contents(t) == old(Contents(t)) - {leaf.key}
  {
    hide P.Valid, A.Valid, Contents, Removed;
    if compressed {
      var _ := P.EraseAt(t, leaf);
    } else {
      var _ := A.EraseAt(t, leaf);
    }
  }

  /** last can be reached from first by ++. */
  ghost predicate Reaches(t: RadixTree, first: Node, last: Node)
    reads t
  {
    last == t.endLeaf || last.full in Rest(t, first)
  }

  /** Erasing the key k leaves every other iterator where it was. */
  lemma Stays(t: RadixTree, keys: set<Str>, at0: map<Str, Node>, k: Str, node: Node)
    requires Sound(t) && t.trie.keys == keys - {k} && SameLeaves(t.trie.keys, at0, t.at)
    requires node != t.endLeaf ==> node.full in keys && node.full in at0 && at0[node.full] == node && node.full != k && node.tag == Tag.Leaf
    requires node != t.endLeaf ==> k !in From(keys, node.full)
    ensures t.Position(node) && (node == t.endLeaf || From(t.trie.keys, node.full) == From(keys, node.full))
  {
    hide RadixTree.Wired, Node.Rep, Trie.WF, Sound, Less;
    FromWithout(keys, node.full, k);
    SoundParts(t);
    if t.root == null { EmptyKeys(t); }
  }

  /** After visiting a leaf other than last, last is still ahead and the visited leaf is not. */
  lemma StillAhead(t: RadixTree, first: Node, next: Node, last: Node)
    requires Sound(t) && t.Position(first) && t.Position(last) && Reaches(t, first, last) && first != last && first != t.endLeaf
    requires Rest(t, next) == Rest(t, first) - {first.full}
    ensures Reaches(t, next, last) && first.full !in Rest(t, last)
    ensures last != t.endLeaf ==> last.full != first.full
  {
    hide RadixTree.Wired, Node.Rep, Trie.WF, Sound, Less;
    AtLeaf(t, first);
    if last != t.endLeaf {
      AtLeaf(t, last);
      LessTotal(first.full, last.full);
    }
  }

  /** One turn of the loop: erase(first++). */
  method EraseFirst(t: RadixTree, first: Node, last: Node, compressed: bool) returns (next: Node)
    requires Valid(t, compressed) && t.Position(first) && t.Position(last) && Reaches(t, first, last) && first != last
    modifies t.Repr
    ensures Valid(t, compressed) && fresh(t.Repr - old(t.Repr)) && t.Position(next) && t.Position(last) && Reaches(t, next, last)
    ensures first.full in old(Rest(t, first)) && first.full !in old(Rest(t, last)) && first.full in old(t.trie.keys)
    ensures Rest(t, next) == old(Rest(t, first)) - {first.full} && Rest(t, last) == old(Rest(t, last))
    ensures t.trie.keys == old(t.trie.keys) - {first.full} && Contents(t) == old(Contents(t)) - {first.full}
    ensures SameLeaves(t.trie.keys, old(t.at), t.at)
  {
    hide RadixTree.Wired, Node.Rep, Trie.WF, Sound, Valid, From, Less, Contents, SameLeaves, IsNext;
    ValidIsSound(t, compressed);
    NotPastEnd(t, first, last);
    AtLeaf(t, first);
    next := Advance(t, first);
    StillAhead(t, first, next, last);
    if next != t.endLeaf { AtLeaf(t, next); }
    if last != t.endLeaf { AtLeaf(t, last); }
    EraseAt(t, first, compressed);
    ValidIsSound(t, compressed);
    Stays(t, old(t.trie.keys), old(t.at), first.full, next);
    Stays(t, old(t.trie.keys), old(t.at), first.full, last);
  }

  lemma KeepsLeaves(t: RadixTree)
    requires Sound(t)
    ensures SameLeaves(t.trie.keys, t.at, t.at)
  {
    hide RadixTree.Wired, Node.Rep, Trie.WF, Sound;
    SoundParts(t);
    KeysLive(t);
  }

  lemma SameLeavesChain(keys0: set<Str>, keys: set<Str>, at0: map<Str, Node>, at1: map<Str, Node>, at2: map<Str, Node>)
    requires SameLeaves(keys0, at0, at1) && keys <= keys0 && SameLeaves(keys, at1, at2)
    ensures SameLeaves(keys, at0, at2)
  {
  }

  lemma WithoutBoth(m: map<Str, Value>, gone: set<Str>, k: Str)
    ensures m - gone - {k} == m - (gone + {k})
  {
  }

  lemma NotPastEnd(t: RadixTree, first: Node, last: Node)
    requires Reaches(t, first, last) && first != last
    ensures first != t.endLeaf
  {
  }

  /** radix_map's erase(first, last): erases exactly [first, last), and last stays a valid iterator, in either tree. */
  method EraseRange(t: RadixTree, first: Node, last: Node, compressed: bool) returns (r: Node)
    requires Valid(t, compressed) && t.Position(first) && t.Position(last) && Reaches(t, first, last)
    modifies t.Repr
    ensures Valid(t, compressed) && fresh(t.Repr - old(t.Repr)) && r == last && t.Position(last)
    ensures t.trie.keys == old(t.trie.keys) - (old(Rest(t, first)) - old(Rest(t, last)))
    ensures Contents(t) == old(Contents(t)) - (old(Rest(t, first)) - old(Rest(t, last)))
    ensures SameLeaves(t.trie.keys, old(t.at), t.at)
  {
    hide RadixTree.Wired, Node.Rep, Trie.WF, Sound, Valid, From, Less, Contents, SameLeaves, Reaches, Rest, RadixTree.Position;
    ValidIsSound(t, compressed);
    KeepsLeaves(t);
    var it := first;
    ghost var gone, rest, kept := {}, Rest(t, first), t.trie.keys;
    while it != last
      invariant Valid(t, compressed) && t.Position(it) && t.Position(last) && Reaches(t, it, last) && fresh(t.Repr - old(t.Repr))
      invariant Rest(t, last) == old(Rest(t, last))
      invariant rest == Rest(t, it) && gone == old(Rest(t, first)) - rest && rest <= old(Rest(t, first))
      invariant kept == t.trie.keys == old(t.trie.keys) - gone
      invariant Contents(t) == old(Contents(t)) - gone
      invariant SameLeaves(kept, old(t.at), t.at)
      decreases rest
    {
      ghost var keys, at1, k := kept, t.at, it.full;
      it := EraseFirst(t, it, last, compressed);
      rest, kept := Rest(t, it), t.trie.keys;
      SameLeavesChain(keys, kept, old(t.at), at1, t.at);
      WithoutBoth(old(Contents(t)), gone, k);
      gone := gone + {k};
    }
    return last;
  }
}
