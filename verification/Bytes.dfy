/** Byte strings: the transformed keys of the radix trees and their two orders,
    the prefix order (Dafny's `<=` on sequences) and the lexicographic order of memcmp. */
module Bytes {

  type Byte = x: int | 0 <= x < 256

  type Str = seq<Byte>

  /** s is a proper prefix of t. */
  predicate Extends(s: Str, t: Str) {
    |s| < |t| && s <= t
  }

  /** The length of the longest common prefix. */
  function Lcp(a: Str, b: Str): (n: nat)
    ensures n <= |a| && n <= |b| && a[..n] == b[..n]
    ensures n < |a| && n < |b| ==> a[n] != b[n]
  {
    if |a| == 0 || |b| == 0 || a[0] != b[0] then 0
    else
      assert a == [a[0]] + a[1..] && b == [b[0]] + b[1..];
      1 + Lcp(a[1..], b[1..])
  }

  /** The lexicographic order; on strings of one length it is memcmp(a, b) < 0. */
  predicate Less(a: Str, b: Str) {
    var n := Lcp(a, b);
    n < |b| && (n == |a| || a[n] < b[n])
  }

  /** A prefix that is no shorter is the whole string. */
  lemma PrefixEqual(s: Str, t: Str)
    ensures s <= t && |t| <= |s| ==> s == t
  {
  }

  /** A common prefix of length n followed by different bytes is the longest one. */
  lemma LcpUnique(a: Str, b: Str, n: nat)
    requires n < |a| && n < |b| && a[..n] == b[..n] && a[n] != b[n]
    ensures Lcp(a, b) == n
  {
    assert forall i :: 0 <= i < n ==> a[i] == a[..n][i] == b[..n][i];
    assert forall i :: 0 <= i < Lcp(a, b) ==> a[i] == a[..Lcp(a, b)][i] == b[..Lcp(a, b)][i];
  }

  /** Two keys that leave a common prefix s at different bytes are ordered by those bytes. */
  lemma LessAt(s: Str, a: Str, b: Str)
    requires Extends(s, a) && Extends(s, b) && a[|s|] != b[|s|]
    ensures Lcp(a, b) == |s|
    ensures Less(a, b) <==> a[|s|] < b[|s|]
  {
    assert a[..|s|] == s == b[..|s|];
    LcpUnique(a, b, |s|);
  }

  lemma LessIrreflexive(a: Str)
    ensures !Less(a, a)
  {
  }

  /** On strings of one length the order is total. */
  lemma LessTotal(a: Str, b: Str)
    requires |a| == |b| && a != b
    ensures Less(a, b) != Less(b, a)
  {
    var n := Lcp(a, b);
    assert n < |a| by {
      assert a == a[..|a|] && b == b[..|b|];
    }
    LcpUnique(b, a, n);
  }

  lemma LessTransitive(a: Str, b: Str, c: Str)
    requires |a| == |b| == |c| && Less(a, b) && Less(b, c)
    ensures Less(a, c)
  {
    var m, n := Lcp(a, b), Lcp(b, c);
    var i := if m < n then m else n;
    assert forall j :: 0 <= j < m ==> a[j] == a[..m][j] == b[..m][j];
    assert forall j :: 0 <= j < n ==> b[j] == b[..n][j] == c[..n][j];
    assert a[..i] == c[..i];
    LcpUnique(a, c, i);
  }

  /** memcmp over keys of one size. */
  method MemCmp(a: Str, b: Str) returns (c: int)
    requires |a| == |b|
    ensures (c < 0 <==> Less(a, b)) && (c == 0 <==> a == b) && (c > 0 <==> Less(b, a))
  {
    var i := 0;
    while i < |a|
      invariant i <= |a| && a[..i] == b[..i]
    {
      if a[i] != b[i] {
        LcpUnique(a, b, i);
        LcpUnique(b, a, i);
        return if a[i] < b[i] then -1 else 1;
      }
      i := i + 1;
    }
    assert a == a[..i] && b == b[..i];
    LessIrreflexive(a);
    return 0;
  }

  lemma LessAsymmetric(a: Str, b: Str)
    requires |a| == |b| && Less(a, b)
    ensures !Less(b, a)
  {
    LessIrreflexive(a);
    if Less(b, a) { LessTransitive(a, b, a); }
  }
}
