/** key_transform: keys become byte strings whose memcmp order is the order of the keys.
    Words are bit patterns of a little-endian machine. */
module KeyTransforms {
  import opened Bytes

  // ---- Words and their memory ----

  function Low8(x: bv8): Byte { x as int }
  function Low16(x: bv16): Byte { Low8((x & 0xFF) as bv8) }
  function Low32(x: bv32): Byte { Low8((x & 0xFF) as bv8) }
  function Low64(x: bv64): Byte { Low8((x & 0xFF) as bv8) }

  function Memory8(x: bv8): Str { [Low8(x)] }
  function Memory16(x: bv16): Str { [Low16(x), Low16(x >> 8)] }
  function Memory32(x: bv32): Str { [Low32(x), Low32(x >> 8), Low32(x >> 16), Low32(x >> 24)] }
  function Memory64(x: bv64): Str {
    [Low64(x), Low64(x >> 8), Low64(x >> 16), Low64(x >> 24), Low64(x >> 32), Low64(x >> 40), Low64(x >> 48), Low64(x >> 56)]
  }

  // ---- byte_swap ----

  function ByteSwap16(v: bv16): bv16 { (v << 8) | (v >> 8) }

  function ByteSwap32(v: bv32): bv32 {
    SwapHalves32(((v << 8) & 0xFF00FF00) | ((v >> 8) & 0xFF00FF))
  }

  /** The return expression of byte_swap(uint32_t). */
  function SwapHalves32(v: bv32): bv32 { (v << 16) | (v >> 16) }

  function ByteSwap64(v: bv64): bv64 {
    SwapPairs64(((v << 8) & 0xFF00FF00FF00FF00) | ((v >> 8) & 0x00FF00FF00FF00FF))
  }

  /** The second assignment and the return expression of byte_swap(uint64_t). */
  function SwapPairs64(v: bv64): bv64 {
    SwapWords64(((v << 16) & 0xFFFF0000FFFF0000) | ((v >> 16) & 0x0000FFFF0000FFFF))
  }

  function SwapWords64(v: bv64): bv64 { (v << 32) | (v >> 32) }

  /** The arithmetic shift of a signed word. */
  function Sar32(v: bv32, n: bv32): bv32
    requires n <= 32
  {
    if v & 0x8000_0000 == 0 then v >> n else !(!v >> n)
  }

  function Sar64(v: bv64, n: bv64): bv64
    requires n <= 64
  {
    if v & 0x8000_0000_0000_0000 == 0 then v >> n else !(!v >> n)
  }

  /** The promotion of an int16_t to int. */
  function Promote16(v: bv16): bv32 {
    if v & 0x8000 == 0 then v as bv32 else 0xFFFF_0000 | (v as bv32)
  }

  /** byte_swap of an int16_t: computed in int and truncated. */
  function SignedByteSwap16(v: bv16): bv16 {
    var p := Promote16(v);
    (((p << 8) | (Sar32(p, 8) & 0xFF)) & 0xFFFF) as bv16
  }

  function SignedByteSwap32(v: bv32): bv32 {
    SignedSwapHalves32(((v << 8) & 0xFF00FF00) | (Sar32(v, 8) & 0xFF00FF))
  }

  function SignedSwapHalves32(v: bv32): bv32 { (v << 16) | (Sar32(v, 16) & 0xFFFF) }

  function SignedByteSwap64(v: bv64): bv64 {
    SignedSwapPairs64(((v << 8) & 0xFF00FF00FF00FF00) | (Sar64(v, 8) & 0x00FF00FF00FF00FF))
  }

  function SignedSwapPairs64(v: bv64): bv64 {
    SignedSwapWords64(((v << 16) & 0xFFFF0000FFFF0000) | (Sar64(v, 16) & 0x0000FFFF0000FFFF))
  }

  function SignedSwapWords64(v: bv64): bv64 { (v << 32) | (Sar64(v, 32) & 0xFFFFFFFF) }

  lemma PromotePositive(v: bv16)
    requires v & 0x8000 == 0
    ensures Promote16(v) & 0xFFFF == v as bv32
  {
  }

  lemma PromoteNegative(v: bv16)
    requires v & 0x8000 != 0
    ensures Promote16(v) & 0xFFFF == v as bv32
  {
  }

  lemma PromoteLow(v: bv16)
    ensures Promote16(v) & 0xFFFF == v as bv32
  {
    if v & 0x8000 == 0 { PromotePositive(v); } else { PromoteNegative(v); }
  }

  /** The masks remove the copies of the sign bit. */
  lemma SarByte32(v: bv32)
    ensures Sar32(v, 8) & 0xFF == (v >> 8) & 0xFF
  {
    if v & 0x8000_0000 != 0 {
      assert !(!v >> 8) & 0xFF == (v >> 8) & 0xFF;
    }
  }

  lemma SarEven32(v: bv32)
    ensures Sar32(v, 8) & 0xFF00FF == (v >> 8) & 0xFF00FF
  {
    if v & 0x8000_0000 != 0 {
      assert !(!v >> 8) & 0xFF00FF == (v >> 8) & 0xFF00FF;
    }
  }

  lemma SarHalfPositive32(v: bv32)
    requires v & 0x8000_0000 == 0
    ensures Sar32(v, 16) & 0xFFFF == v >> 16
  {
  }

  lemma SarNegative32(v: bv32)
    requires v & 0x8000_0000 != 0
    ensures Sar32(v, 16) == !(!v >> 16)
  {
  }

  lemma FlipHalf32(v: bv32)
    ensures !(!v >> 16) & 0xFFFF == v >> 16
  {
  }

  lemma SarHalfNegative32(v: bv32)
    requires v & 0x8000_0000 != 0
    ensures Sar32(v, 16) & 0xFFFF == v >> 16
  {
    hide Sar32;
    SarNegative32(v);
    FlipHalf32(v);
  }

  lemma SarHalf32(v: bv32)
    ensures Sar32(v, 16) & 0xFFFF == v >> 16
  {
    if v & 0x8000_0000 == 0 { SarHalfPositive32(v); } else { SarHalfNegative32(v); }
  }

  lemma SarEven64(v: bv64)
    ensures Sar64(v, 8) & 0x00FF00FF00FF00FF == (v >> 8) & 0x00FF00FF00FF00FF
  {
    if v & 0x8000_0000_0000_0000 != 0 {
      assert !(!v >> 8) & 0x00FF00FF00FF00FF == (v >> 8) & 0x00FF00FF00FF00FF;
    }
  }

  lemma SarPairs64(v: bv64)
    ensures Sar64(v, 16) & 0x0000FFFF0000FFFF == (v >> 16) & 0x0000FFFF0000FFFF
  {
    if v & 0x8000_0000_0000_0000 != 0 {
      assert !(!v >> 16) & 0x0000FFFF0000FFFF == (v >> 16) & 0x0000FFFF0000FFFF;
    }
  }

  lemma SarHalfPositive64(v: bv64)
    requires v & 0x8000_0000_0000_0000 == 0
    ensures Sar64(v, 32) & 0xFFFFFFFF == v >> 32
  {
  }

  lemma SarNegative64(v: bv64)
    requires v & 0x8000_0000_0000_0000 != 0
    ensures Sar64(v, 32) == !(!v >> 32)
  {
  }

  lemma FlipHalf64(v: bv64)
    ensures !(!v >> 32) & 0xFFFFFFFF == v >> 32
  {
  }

  lemma SarHalfNegative64(v: bv64)
    requires v & 0x8000_0000_0000_0000 != 0
    ensures Sar64(v, 32) & 0xFFFFFFFF == v >> 32
  {
    hide Sar64;
    SarNegative64(v);
    FlipHalf64(v);
  }

  lemma SarHalf64(v: bv64)
    ensures Sar64(v, 32) & 0xFFFFFFFF == v >> 32
  {
    if v & 0x8000_0000_0000_0000 == 0 { SarHalfPositive64(v); } else { SarHalfNegative64(v); }
  }

  lemma Truncated16(p: bv32, v: bv16)
    requires p & 0xFFFF == v as bv32
    ensures (((p << 8) | ((p >> 8) & 0xFF)) & 0xFFFF) as bv16 == (v << 8) | (v >> 8)
  {
  }

  lemma SignedSwap16(v: bv16)
    ensures SignedByteSwap16(v) == ByteSwap16(v)
  {
    hide Promote16, Sar32;
    PromoteLow(v);
    SarByte32(Promote16(v));
    Truncated16(Promote16(v), v);
  }

  lemma SignedHalves32(v: bv32)
    ensures SignedSwapHalves32(v) == SwapHalves32(v)
  {
    hide Sar32;
    SarHalf32(v);
  }

  lemma SignedSwap32(v: bv32)
    ensures SignedByteSwap32(v) == ByteSwap32(v)
  {
    hide Sar32, SignedSwapHalves32, SwapHalves32;
    SarEven32(v);
    SignedHalves32(((v << 8) & 0xFF00FF00) | ((v >> 8) & 0xFF00FF));
  }

  lemma SignedWords64(v: bv64)
    ensures SignedSwapWords64(v) == SwapWords64(v)
  {
    hide Sar64;
    SarHalf64(v);
  }

  lemma SignedPairs64(v: bv64)
    ensures SignedSwapPairs64(v) == SwapPairs64(v)
  {
    hide Sar64, SignedSwapWords64, SwapWords64;
    SarPairs64(v);
    SignedWords64(((v << 16) & 0xFFFF0000FFFF0000) | ((v >> 16) & 0x0000FFFF0000FFFF));
  }

  lemma SignedSwap64(v: bv64)
    ensures SignedByteSwap64(v) == ByteSwap64(v)
  {
    hide Sar64, SignedSwapPairs64, SwapPairs64;
    SarEven64(v);
    SignedPairs64(((v << 8) & 0xFF00FF00FF00FF00) | ((v >> 8) & 0x00FF00FF00FF00FF));
  }

  lemma SwapTwice16(v: bv16)
    ensures ByteSwap16(ByteSwap16(v)) == v
  {
  }

  lemma SwapTwice32(v: bv32)
    ensures ByteSwap32(ByteSwap32(v)) == v
  {
  }

  lemma SwapTwice64(v: bv64)
    ensures ByteSwap64(ByteSwap64(v)) == v
  {
  }

  /** Every byte_swap is its own inverse, also of signed words. */
  lemma SwapInvolution(a: bv16, b: bv32, c: bv64)
    ensures ByteSwap16(ByteSwap16(a)) == a && SignedByteSwap16(SignedByteSwap16(a)) == a
    ensures ByteSwap32(ByteSwap32(b)) == b && SignedByteSwap32(SignedByteSwap32(b)) == b
    ensures ByteSwap64(ByteSwap64(c)) == c && SignedByteSwap64(SignedByteSwap64(c)) == c
  {
    hide SignedByteSwap16, SignedByteSwap32, SignedByteSwap64, ByteSwap16, ByteSwap32, ByteSwap64;
    SwapTwice16(a);
    SignedSwap16(a);
    SignedSwap16(ByteSwap16(a));
    SwapTwice32(b);
    SignedSwap32(b);
    SignedSwap32(ByteSwap32(b));
    SwapTwice64(c);
    SignedSwap64(c);
    SignedSwap64(ByteSwap64(c));
  }

  lemma SwapBits16(x: bv16)
    ensures ByteSwap16(x) & 0xFF == (x >> 8) & 0xFF
    ensures (ByteSwap16(x) >> 8) & 0xFF == x & 0xFF
  {
  }

  /** y has the bytes of x in reverse. */
  predicate Mirrored32(x: bv32, y: bv32) {
    && y & 0xFF == (x >> 24) & 0xFF && (y >> 8) & 0xFF == (x >> 16) & 0xFF
    && (y >> 16) & 0xFF == (x >> 8) & 0xFF && (y >> 24) & 0xFF == x & 0xFF
  }

  lemma SwapBits32(x: bv32)
    ensures Mirrored32(x, ByteSwap32(x))
  {
  }

  predicate Mirrored64(x: bv64, y: bv64) {
    && y & 0xFF == (x >> 56) & 0xFF && (y >> 8) & 0xFF == (x >> 48) & 0xFF
    && (y >> 16) & 0xFF == (x >> 40) & 0xFF && (y >> 24) & 0xFF == (x >> 32) & 0xFF
    && (y >> 32) & 0xFF == (x >> 24) & 0xFF && (y >> 40) & 0xFF == (x >> 16) & 0xFF
    && (y >> 48) & 0xFF == (x >> 8) & 0xFF && (y >> 56) & 0xFF == x & 0xFF
  }

  lemma SwapBits64(x: bv64)
    ensures Mirrored64(x, ByteSwap64(x))
  {
  }

  function Reverse(s: Str): (r: Str)
    ensures |r| == |s|
  {
    if |s| == 0 then [] else Reverse(s[1..]) + [s[0]]
  }

  lemma {:induction false} ReverseAt(s: Str, k: nat)
    requires k < |s|
    ensures Reverse(s)[k] == s[|s| - 1 - k]
  {
    if k < |s| - 1 { ReverseAt(s[1..], k); }
  }

  /** Swapping a word reverses its bytes in memory. */
  lemma SwapReverses16(x: bv16)
    ensures Memory16(ByteSwap16(x)) == Reverse(Memory16(x))
  {
    hide ByteSwap16, Reverse;
    SwapBits16(x);
    forall k: nat | k < 2 ensures Reverse(Memory16(x))[k] == Memory16(x)[1 - k] { ReverseAt(Memory16(x), k); }
  }

  lemma SwapMemory32(x: bv32, y: bv32)
    requires Mirrored32(x, y)
    ensures Low32(y) == Low32(x >> 24) && Low32(y >> 8) == Low32(x >> 16)
    ensures Low32(y >> 16) == Low32(x >> 8) && Low32(y >> 24) == Low32(x)
  {
  }

  lemma ReverseFour(s: Str)
    requires |s| == 4
    ensures Reverse(s) == [s[3], s[2], s[1], s[0]]
  {
    hide Reverse;
    forall k: nat | k < 4 ensures Reverse(s)[k] == s[3 - k] { ReverseAt(s, k); }
  }

  lemma LowsReverse32(x: bv32, y: bv32)
    requires Low32(y) == Low32(x >> 24) && Low32(y >> 8) == Low32(x >> 16)
    requires Low32(y >> 16) == Low32(x >> 8) && Low32(y >> 24) == Low32(x)
    ensures Memory32(y) == Reverse(Memory32(x))
  {
    hide Reverse, Low32;
    ReverseFour(Memory32(x));
  }

  lemma MirroredReverses32(x: bv32, y: bv32)
    requires Mirrored32(x, y)
    ensures Memory32(y) == Reverse(Memory32(x))
  {
    hide Mirrored32, Reverse, Low32, Memory32;
    SwapMemory32(x, y);
    LowsReverse32(x, y);
  }

  lemma SwapReverses32(x: bv32)
    ensures Memory32(ByteSwap32(x)) == Reverse(Memory32(x))
  {
    hide ByteSwap32, Mirrored32, Reverse, Memory32;
    SwapBits32(x);
    MirroredReverses32(x, ByteSwap32(x));
  }

  lemma SwapMemory64(x: bv64, y: bv64)
    requires Mirrored64(x, y)
    ensures Low64(y) == Low64(x >> 56) && Low64(y >> 8) == Low64(x >> 48) && Low64(y >> 16) == Low64(x >> 40)
    ensures Low64(y >> 24) == Low64(x >> 32) && Low64(y >> 32) == Low64(x >> 24) && Low64(y >> 40) == Low64(x >> 16)
    ensures Low64(y >> 48) == Low64(x >> 8) && Low64(y >> 56) == Low64(x)
  {
  }

  lemma ReverseEight(s: Str)
    requires |s| == 8
    ensures Reverse(s) == [s[7], s[6], s[5], s[4], s[3], s[2], s[1], s[0]]
  {
    hide Reverse;
    forall k: nat | k < 8 ensures Reverse(s)[k] == s[7 - k] { ReverseAt(s, k); }
  }

  lemma LowsReverse64(x: bv64, y: bv64)
    requires Low64(y) == Low64(x >> 56) && Low64(y >> 8) == Low64(x >> 48) && Low64(y >> 16) == Low64(x >> 40)
    requires Low64(y >> 24) == Low64(x >> 32) && Low64(y >> 32) == Low64(x >> 24) && Low64(y >> 40) == Low64(x >> 16)
    requires Low64(y >> 48) == Low64(x >> 8) && Low64(y >> 56) == Low64(x)
    ensures Memory64(y) == Reverse(Memory64(x))
  {
    hide Reverse, Low64;
    ReverseEight(Memory64(x));
  }

  lemma MirroredReverses64(x: bv64, y: bv64)
    requires Mirrored64(x, y)
    ensures Memory64(y) == Reverse(Memory64(x))
  {
    hide Mirrored64, Reverse, Low64, Memory64;
    SwapMemory64(x, y);
    LowsReverse64(x, y);
  }

  lemma SwapReverses64(x: bv64)
    ensures Memory64(ByteSwap64(x)) == Reverse(Memory64(x))
  {
    hide ByteSwap64, Mirrored64, Reverse, Memory64;
    SwapBits64(x);
    MirroredReverses64(x, ByteSwap64(x));
  }

  // ---- Numbers ----

  function Pow256(n: nat): (p: nat)
    ensures p > 0
  {
    if n == 0 then 1 else 256 * Pow256(n - 1)
  }

  /** The number whose bytes, most significant first, are s. */
  function BigEndian(s: Str): nat {
    if |s| == 0 then 0 else s[0] * Pow256(|s| - 1) + BigEndian(s[1..])
  }

  /** The unsigned number that a little-endian machine stores as s. */
  function LittleEndian(s: Str): nat {
    if |s| == 0 then 0 else s[0] + 256 * LittleEndian(s[1..])
  }

  /** The two's complement number that a little-endian machine stores as s. */
  function TwosComplement(s: Str): int
    requires |s| > 0
  {
    LittleEndian(s) - if s[|s| - 1] >= 128 then Pow256(|s|) else 0
  }

  lemma DigitBound(a: Byte, p: nat, x: nat)
    requires x < p
    ensures a * p + x < 256 * p
  {
    assert (a + 1) * p <= 256 * p;
    assert (a + 1) * p == a * p + p;
  }

  lemma {:induction false} BigEndianBound(s: Str)
    ensures BigEndian(s) < Pow256(|s|)
  {
    if |s| > 0 {
      BigEndianBound(s[1..]);
      DigitBound(s[0], Pow256(|s| - 1), BigEndian(s[1..]));
    }
  }

  lemma FirstDecides(a: Byte, b: Byte, p: nat, x: nat, y: nat)
    requires x < p && y < p
    ensures a < b ==> a * p + x < b * p + y
    ensures a == b ==> (a * p + x < b * p + y <==> x < y)
  {
    if a < b {
      assert (a + 1) * p <= b * p;
      assert (a + 1) * p == a * p + p;
    }
  }

  lemma LessFirst(a: Str, b: Str)
    requires |a| == |b| > 0
    ensures Less(a, b) <==> a[0] < b[0] || (a[0] == b[0] && Less(a[1..], b[1..]))
  {
    if a[0] == b[0] {
      var n := Lcp(a[1..], b[1..]);
      assert a == [a[0]] + a[1..] && b == [b[0]] + b[1..];
    }
  }

  /** memcmp compares big-endian numbers. */
  lemma {:induction false} LessIsNumeric(a: Str, b: Str)
    requires |a| == |b|
    ensures Less(a, b) <==> BigEndian(a) < BigEndian(b)
  {
    hide Less;
    if |a| == 0 {
      LessIrreflexive(a);
    } else {
      LessFirst(a, b);
      LessIsNumeric(a[1..], b[1..]);
      BigEndianBound(a[1..]);
      BigEndianBound(b[1..]);
      FirstDecides(a[0], b[0], Pow256(|a| - 1), BigEndian(a[1..]), BigEndian(b[1..]));
      FirstDecides(b[0], a[0], Pow256(|a| - 1), BigEndian(b[1..]), BigEndian(a[1..]));
    }
  }

  lemma {:induction false} BigEndianAppend(s: Str, b: Byte)
    ensures BigEndian(s + [b]) == 256 * BigEndian(s) + b
  {
    if |s| == 0 {
      assert s + [b] == [b];
      assert [b][1..] == [];
    } else {
      assert (s + [b])[1..] == s[1..] + [b];
      BigEndianAppend(s[1..], b);
      assert s[0] * Pow256(|s|) == 256 * (s[0] * Pow256(|s| - 1));
    }
  }

  /** Reversing the bytes turns little-endian into big-endian. */
  lemma {:induction false} ReverseEndian(s: Str)
    ensures BigEndian(Reverse(s)) == LittleEndian(s)
  {
    if |s| > 0 {
      BigEndianAppend(Reverse(s[1..]), s[0]);
      ReverseEndian(s[1..]);
    }
  }

  // ---- The sign bit ----

  /** The bytes of a little-endian word with its most significant bit flipped. */
  function FlipTop(s: Str): Str
    requires |s| > 0
  {
    var top: int := s[|s| - 1];
    s[..|s| - 1] + [(top + 128) % 256]
  }

  lemma FlipByte(b: bv8)
    ensures Low8(b ^ 0x80) == (Low8(b) as int + 128) % 256
  {
  }

  lemma Flip8(x: bv8)
    ensures Memory8(x ^ 0x80) == FlipTop(Memory8(x))
  {
    FlipByte(x);
  }

  lemma FlipBits16(x: bv16)
    ensures ((x ^ 0x8000) & 0xFF) as bv8 == (x & 0xFF) as bv8
    ensures (((x ^ 0x8000) >> 8) & 0xFF) as bv8 == ((x >> 8) & 0xFF) as bv8 ^ 0x80
  {
  }

  lemma Flip16(x: bv16)
    ensures Memory16(x ^ 0x8000) == FlipTop(Memory16(x))
  {
    hide Low8;
    FlipBits16(x);
    FlipByte(((x >> 8) & 0xFF) as bv8);
  }

  lemma FlipBits32(x: bv32)
    ensures ((x ^ 0x8000_0000) & 0xFF) as bv8 == (x & 0xFF) as bv8
    ensures (((x ^ 0x8000_0000) >> 8) & 0xFF) as bv8 == ((x >> 8) & 0xFF) as bv8
    ensures (((x ^ 0x8000_0000) >> 16) & 0xFF) as bv8 == ((x >> 16) & 0xFF) as bv8
    ensures (((x ^ 0x8000_0000) >> 24) & 0xFF) as bv8 == ((x >> 24) & 0xFF) as bv8 ^ 0x80
  {
  }

  lemma Flip32(x: bv32)
    ensures Memory32(x ^ 0x8000_0000) == FlipTop(Memory32(x))
  {
    hide Low8;
    FlipBits32(x);
    FlipByte(((x >> 24) & 0xFF) as bv8);
  }

  lemma FlipBits64(x: bv64)
    ensures var y := x ^ 0x8000_0000_0000_0000;
      && (y & 0xFF) as bv8 == (x & 0xFF) as bv8 && ((y >> 8) & 0xFF) as bv8 == ((x >> 8) & 0xFF) as bv8
      && ((y >> 16) & 0xFF) as bv8 == ((x >> 16) & 0xFF) as bv8 && ((y >> 24) & 0xFF) as bv8 == ((x >> 24) & 0xFF) as bv8
      && ((y >> 32) & 0xFF) as bv8 == ((x >> 32) & 0xFF) as bv8 && ((y >> 40) & 0xFF) as bv8 == ((x >> 40) & 0xFF) as bv8
      && ((y >> 48) & 0xFF) as bv8 == ((x >> 48) & 0xFF) as bv8
      && ((y >> 56) & 0xFF) as bv8 == ((x >> 56) & 0xFF) as bv8 ^ 0x80
  {
  }

  lemma Flip64(x: bv64)
    ensures Memory64(x ^ 0x8000_0000_0000_0000) == FlipTop(Memory64(x))
  {
    hide Low8;
    FlipBits64(x);
    FlipByte(((x >> 56) & 0xFF) as bv8);
  }

  lemma {:induction false} LittleEndianSplit(s: Str, b: Byte)
    ensures LittleEndian(s + [b]) == LittleEndian(s) + b * Pow256(|s|)
  {
    if |s| == 0 {
      assert s + [b] == [b];
      assert [b][1..] == [];
    } else {
      assert (s + [b])[1..] == s[1..] + [b];
      LittleEndianSplit(s[1..], b);
      assert 256 * (b * Pow256(|s| - 1)) == b * Pow256(|s|);
    }
  }

  lemma HalfTurn(b: Byte, c: Byte, p: nat)
    requires c == if b >= 128 then b - 128 else b + 128
    ensures c * p == b * p + 128 * p - if b >= 128 then 256 * p else 0
  {
  }

  lemma FlipSplit(s: Str) returns (t: Str, b: Byte, c: Byte)
    requires |s| > 0
    ensures s == t + [b] && FlipTop(s) == t + [c] && |t| == |s| - 1 && b == s[|s| - 1]
    ensures c == if b >= 128 then b - 128 else b + 128
  {
    t, b := s[..|s| - 1], s[|s| - 1];
    c := FlipTop(s)[|s| - 1];
  }

  lemma PowStep(n: nat)
    ensures Pow256(n + 1) == 256 * Pow256(n)
  {
  }

  /** Flipping the sign bit adds half the range to the signed number. */
  lemma FlipAdds(s: Str)
    requires |s| > 0
    ensures LittleEndian(FlipTop(s)) == TwosComplement(s) + 128 * Pow256(|s| - 1)
  {
    hide LittleEndian, Pow256, FlipTop;
    var t, b, c := FlipSplit(s);
    LittleEndianSplit(t, b);
    LittleEndianSplit(t, c);
    HalfTurn(b, c, Pow256(|t|));
    PowStep(|t|);
  }

  // ---- Keys ----

  /** The supported keys: integers by width and signedness, given by their bit patterns, and nested pairs. */
  datatype Key =
    | U8(u8: bv8) | U16(u16: bv16) | U32(u32: bv32) | U64(u64: bv64)
    | I8(i8: bv8) | I16(i16: bv16) | I32(i32: bv32) | I64(i64: bv64)
    | Pair(first: Key, second: Key)

  predicate SameType(a: Key, b: Key) {
    match a
    case U8(_) => b.U8? case U16(_) => b.U16? case U32(_) => b.U32? case U64(_) => b.U64?
    case I8(_) => b.I8? case I16(_) => b.I16? case I32(_) => b.I32? case I64(_) => b.I64?
    case Pair(x, y) => b.Pair? && SameType(x, b.first) && SameType(y, b.second)
  }

  /** The number an integer key stands for. */
  function Number(k: Key): int
    requires !k.Pair?
  {
    match k
    case U8(x) => LittleEndian(Memory8(x))
    case U16(x) => LittleEndian(Memory16(x))
    case U32(x) => LittleEndian(Memory32(x))
    case U64(x) => LittleEndian(Memory64(x))
    case I8(x) => TwosComplement(Memory8(x))
    case I16(x) => TwosComplement(Memory16(x))
    case I32(x) => TwosComplement(Memory32(x))
    case I64(x) => TwosComplement(Memory64(x))
  }

  /** operator< : numbers by value, pairs lexicographically. */
  predicate KeyLess(a: Key, b: Key)
    requires SameType(a, b)
    decreases a, b, 1
  {
    if a.Pair? then PairLess(a, b) else Number(a) < Number(b)
  }

  predicate PairLess(a: Key, b: Key)
    requires a.Pair? && b.Pair? && SameType(a, b)
    decreases a, b, 0
  {
    KeyLess(a.first, b.first) || (a.first == b.first && KeyLess(a.second, b.second))
  }

  /** The memory of the transformed key. */
  function Transform(k: Key): Str {
    match k
    case U8(x) => Memory8(x)
    case U16(x) => Memory16(ByteSwap16(x))
    case U32(x) => Memory32(ByteSwap32(x))
    case U64(x) => Memory64(ByteSwap64(x))
    case I8(x) => Memory8(x ^ 0x80)
    case I16(x) => Memory16(SignedByteSwap16(x ^ 0x8000))
    case I32(x) => Memory32(SignedByteSwap32(x ^ 0x8000_0000))
    case I64(x) => Memory64(SignedByteSwap64(x ^ 0x8000_0000_0000_0000))
    case Pair(x, y) => Transform(x) + Transform(y)
  }

  lemma Unsigned16(x: bv16)
    ensures BigEndian(Transform(U16(x))) == Number(U16(x))
  {
    hide ByteSwap16, Memory16, BigEndian, LittleEndian;
    SwapReverses16(x);
    ReverseEndian(Memory16(x));
  }

  lemma Unsigned32(x: bv32)
    ensures BigEndian(Transform(U32(x))) == Number(U32(x))
  {
    hide ByteSwap32, Memory32, BigEndian, LittleEndian;
    SwapReverses32(x);
    ReverseEndian(Memory32(x));
  }

  lemma Unsigned64(x: bv64)
    ensures BigEndian(Transform(U64(x))) == Number(U64(x))
  {
    hide ByteSwap64, Memory64, BigEndian, LittleEndian;
    SwapReverses64(x);
    ReverseEndian(Memory64(x));
  }

  lemma Byte8(x: bv8)
    ensures BigEndian(Memory8(x)) == LittleEndian(Memory8(x))
  {
    assert Memory8(x)[1..] == [];
  }

  lemma Signed8(x: bv8)
    ensures BigEndian(Transform(I8(x))) == Number(I8(x)) + 128
  {
    Byte8(x ^ 0x80);
    Flip8(x);
    FlipAdds(Memory8(x));
  }

  lemma Signed16(x: bv16)
    ensures BigEndian(Transform(I16(x))) == Number(I16(x)) + 128 * Pow256(1)
  {
    hide ByteSwap16, SignedByteSwap16, BigEndian, LittleEndian, FlipTop, Pow256, Low16;
    SignedSwap16(x ^ 0x8000);
    Unsigned16(x ^ 0x8000);
    Flip16(x);
    FlipAdds(Memory16(x));
  }

  lemma Signed32(x: bv32)
    ensures BigEndian(Transform(I32(x))) == Number(I32(x)) + 128 * Pow256(3)
  {
    hide ByteSwap32, SignedByteSwap32, BigEndian, LittleEndian, FlipTop, Pow256, Low32;
    SignedSwap32(x ^ 0x8000_0000);
    Unsigned32(x ^ 0x8000_0000);
    Flip32(x);
    FlipAdds(Memory32(x));
  }

  lemma Signed64(x: bv64)
    ensures BigEndian(Transform(I64(x))) == Number(I64(x)) + 128 * Pow256(7)
  {
    hide ByteSwap64, SignedByteSwap64, BigEndian, LittleEndian, FlipTop, Pow256, Low64;
    SignedSwap64(x ^ 0x8000_0000_0000_0000);
    Unsigned64(x ^ 0x8000_0000_0000_0000);
    Flip64(x);
    FlipAdds(Memory64(x));
  }

  /** The largest number memcmp order is shifted by. */
  function Offset(k: Key): int
    requires !k.Pair?
  {
    match k
    case I8(_) => 128
    case I16(_) => 128 * Pow256(1)
    case I32(_) => 128 * Pow256(3)
    case I64(_) => 128 * Pow256(7)
    case _ => 0
  }

  lemma IntegerTransform(k: Key)
    requires !k.Pair?
    ensures BigEndian(Transform(k)) == Number(k) + Offset(k)
  {
    hide Transform, Number, BigEndian, Pow256;
    match k
    case U8(x) => Eight(x);
    case U16(x) => Unsigned16(x);
    case U32(x) => Unsigned32(x);
    case U64(x) => Unsigned64(x);
    case I8(x) => Signed8(x);
    case I16(x) => Signed16(x);
    case I32(x) => Signed32(x);
    case I64(x) => Signed64(x);
  }

  lemma Eight(x: bv8)
    ensures BigEndian(Transform(U8(x))) == Number(U8(x))
  {
    Byte8(x);
  }

  lemma {:induction false} SameSize(a: Key, b: Key)
    requires SameType(a, b)
    ensures |Transform(a)| == |Transform(b)|
  {
    if a.Pair? {
      SameSize(a.first, b.first);
      SameSize(a.second, b.second);
    }
  }

  /** The first parts decide unless they are equal. */
  lemma LessConcat(a: Str, b: Str, c: Str, d: Str)
    requires |a| == |b| && |c| == |d|
    ensures Less(a + c, b + d) <==> Less(a, b) || (a == b && Less(c, d))
    ensures a + c == b + d <==> a == b && c == d
  {
    hide Less;
    if a == b {
      LessIrreflexive(a);
      LessBehind(a, c, d);
    } else {
      LessTotal(a, b);
      LessBefore(a, b, c, d);
      assert (a + c)[..|a|] == a && (b + d)[..|a|] == b;
    }
    assert (a + c)[..|a|] == a && (b + d)[..|a|] == b && (a + c)[|a|..] == c && (b + d)[|a|..] == d;
  }

  lemma LessBehind(a: Str, c: Str, d: Str)
    requires |c| == |d|
    ensures Less(a + c, a + d) <==> Less(c, d)
  {
    var n := Lcp(c, d);
    if n < |c| {
      assert n < |d|;
      assert (a + c)[..|a| + n] == a + c[..n] == a + d[..n] == (a + d)[..|a| + n];
      LcpUnique(a + c, a + d, |a| + n);
    } else {
      assert c == d;
      LessIrreflexive(a + c);
    }
  }

  lemma LessBefore(a: Str, b: Str, c: Str, d: Str)
    requires |a| == |b| && a != b
    ensures Less(a + c, b + d) <==> Less(a, b)
  {
    var n := Lcp(a, b);
    assert n < |a| by {
      assert a == a[..|a|] && b == b[..|b|];
    }
    assert (a + c)[..n] == a[..n] && (b + d)[..n] == b[..n];
    LcpUnique(a + c, b + d, n);
  }

  lemma LowInjective(x: bv8, y: bv8)
    ensures Low8(x) == Low8(y) ==> x == y
  {
  }

  lemma Rejoin16(x: bv16, y: bv16)
    requires (x & 0xFF) as bv8 == (y & 0xFF) as bv8 && ((x >> 8) & 0xFF) as bv8 == ((y >> 8) & 0xFF) as bv8
    ensures x == y
  {
  }

  lemma Rejoin32(x: bv32, y: bv32)
    requires (x & 0xFF) as bv8 == (y & 0xFF) as bv8 && ((x >> 8) & 0xFF) as bv8 == ((y >> 8) & 0xFF) as bv8
    requires ((x >> 16) & 0xFF) as bv8 == ((y >> 16) & 0xFF) as bv8 && ((x >> 24) & 0xFF) as bv8 == ((y >> 24) & 0xFF) as bv8
    ensures x == y
  {
  }

  lemma Rejoin64(x: bv64, y: bv64)
    requires (x & 0xFF) as bv8 == (y & 0xFF) as bv8 && ((x >> 8) & 0xFF) as bv8 == ((y >> 8) & 0xFF) as bv8
    requires ((x >> 16) & 0xFF) as bv8 == ((y >> 16) & 0xFF) as bv8 && ((x >> 24) & 0xFF) as bv8 == ((y >> 24) & 0xFF) as bv8
    requires ((x >> 32) & 0xFF) as bv8 == ((y >> 32) & 0xFF) as bv8 && ((x >> 40) & 0xFF) as bv8 == ((y >> 40) & 0xFF) as bv8
    requires ((x >> 48) & 0xFF) as bv8 == ((y >> 48) & 0xFF) as bv8 && ((x >> 56) & 0xFF) as bv8 == ((y >> 56) & 0xFF) as bv8
    ensures x == y
  {
  }

  lemma Injective16(x: bv16, y: bv16)
    requires Memory16(x) == Memory16(y)
    ensures x == y
  {
    hide Low8;
    assert Memory16(x)[0] == Memory16(y)[0] && Memory16(x)[1] == Memory16(y)[1];
    LowInjective((x & 0xFF) as bv8, (y & 0xFF) as bv8);
    LowInjective(((x >> 8) & 0xFF) as bv8, ((y >> 8) & 0xFF) as bv8);
    Rejoin16(x, y);
  }

  lemma Injective32(x: bv32, y: bv32)
    requires Memory32(x) == Memory32(y)
    ensures x == y
  {
    hide Low8;
    assert Memory32(x)[0] == Memory32(y)[0] && Memory32(x)[1] == Memory32(y)[1] && Memory32(x)[2] == Memory32(y)[2]
      && Memory32(x)[3] == Memory32(y)[3];
    LowInjective((x & 0xFF) as bv8, (y & 0xFF) as bv8);
    LowInjective(((x >> 8) & 0xFF) as bv8, ((y >> 8) & 0xFF) as bv8);
    LowInjective(((x >> 16) & 0xFF) as bv8, ((y >> 16) & 0xFF) as bv8);
    LowInjective(((x >> 24) & 0xFF) as bv8, ((y >> 24) & 0xFF) as bv8);
    Rejoin32(x, y);
  }

  lemma Injective64(x: bv64, y: bv64)
    requires Memory64(x) == Memory64(y)
    ensures x == y
  {
    hide Low8;
    assert Memory64(x)[0] == Memory64(y)[0] && Memory64(x)[1] == Memory64(y)[1] && Memory64(x)[2] == Memory64(y)[2]
      && Memory64(x)[3] == Memory64(y)[3]
        && Memory64(x)[4] == Memory64(y)[4] && Memory64(x)[5] == Memory64(y)[5] && Memory64(x)[6] == Memory64(y)[6]
          && Memory64(x)[7] == Memory64(y)[7];
    LowInjective((x & 0xFF) as bv8, (y & 0xFF) as bv8);
    LowInjective(((x >> 8) & 0xFF) as bv8, ((y >> 8) & 0xFF) as bv8);
    LowInjective(((x >> 16) & 0xFF) as bv8, ((y >> 16) & 0xFF) as bv8);
    LowInjective(((x >> 24) & 0xFF) as bv8, ((y >> 24) & 0xFF) as bv8);
    LowInjective(((x >> 32) & 0xFF) as bv8, ((y >> 32) & 0xFF) as bv8);
    LowInjective(((x >> 40) & 0xFF) as bv8, ((y >> 40) & 0xFF) as bv8);
    LowInjective(((x >> 48) & 0xFF) as bv8, ((y >> 48) & 0xFF) as bv8);
    LowInjective(((x >> 56) & 0xFF) as bv8, ((y >> 56) & 0xFF) as bv8);
    Rejoin64(x, y);
  }

  lemma SwapInjective16(x: bv16, y: bv16)
    requires Memory16(ByteSwap16(x)) == Memory16(ByteSwap16(y))
    ensures x == y
  {
    hide ByteSwap16, Memory16;
    Injective16(ByteSwap16(x), ByteSwap16(y));
    SwapTwice16(x);
    SwapTwice16(y);
  }

  lemma SignedInjective16(x: bv16, y: bv16)
    requires Memory16(SignedByteSwap16(x ^ 0x8000)) == Memory16(SignedByteSwap16(y ^ 0x8000))
    ensures x == y
  {
    hide ByteSwap16, SignedByteSwap16, Memory16;
    SignedSwap16(x ^ 0x8000);
    SignedSwap16(y ^ 0x8000);
    SwapInjective16(x ^ 0x8000, y ^ 0x8000);
    assert (x ^ 0x8000) ^ 0x8000 == x && (y ^ 0x8000) ^ 0x8000 == y;
  }

  lemma SwapInjective32(x: bv32, y: bv32)
    requires Memory32(ByteSwap32(x)) == Memory32(ByteSwap32(y))
    ensures x == y
  {
    hide ByteSwap32, Memory32;
    Injective32(ByteSwap32(x), ByteSwap32(y));
    SwapTwice32(x);
    SwapTwice32(y);
  }

  lemma SignedInjective32(x: bv32, y: bv32)
    requires Memory32(SignedByteSwap32(x ^ 0x8000_0000)) == Memory32(SignedByteSwap32(y ^ 0x8000_0000))
    ensures x == y
  {
    hide ByteSwap32, SignedByteSwap32, Memory32;
    SignedSwap32(x ^ 0x8000_0000);
    SignedSwap32(y ^ 0x8000_0000);
    SwapInjective32(x ^ 0x8000_0000, y ^ 0x8000_0000);
    assert (x ^ 0x8000_0000) ^ 0x8000_0000 == x && (y ^ 0x8000_0000) ^ 0x8000_0000 == y;
  }

  lemma SwapInjective64(x: bv64, y: bv64)
    requires Memory64(ByteSwap64(x)) == Memory64(ByteSwap64(y))
    ensures x == y
  {
    hide ByteSwap64, Memory64;
    Injective64(ByteSwap64(x), ByteSwap64(y));
    SwapTwice64(x);
    SwapTwice64(y);
  }

  lemma SignedInjective64(x: bv64, y: bv64)
    requires Memory64(SignedByteSwap64(x ^ 0x8000_0000_0000_0000)) == Memory64(SignedByteSwap64(y ^ 0x8000_0000_0000_0000))
    ensures x == y
  {
    hide ByteSwap64, SignedByteSwap64, Memory64;
    SignedSwap64(x ^ 0x8000_0000_0000_0000);
    SignedSwap64(y ^ 0x8000_0000_0000_0000);
    SwapInjective64(x ^ 0x8000_0000_0000_0000, y ^ 0x8000_0000_0000_0000);
    assert (x ^ 0x8000_0000_0000_0000) ^ 0x8000_0000_0000_0000 == x && (y ^ 0x8000_0000_0000_0000) ^ 0x8000_0000_0000_0000 == y;
  }

  lemma Injective8(x: bv8, y: bv8)
    ensures Memory8(x) == Memory8(y) ==> x == y
    ensures Memory8(x ^ 0x80) == Memory8(y ^ 0x80) ==> x == y
  {
    hide Low8;
    assert Memory8(x) == Memory8(y) ==> Memory8(x)[0] == Memory8(y)[0];
    assert Memory8(x ^ 0x80) == Memory8(y ^ 0x80) ==> Memory8(x ^ 0x80)[0] == Memory8(y ^ 0x80)[0];
    LowInjective(x, y);
    LowInjective(x ^ 0x80, y ^ 0x80);
    assert (x ^ 0x80) ^ 0x80 == x && (y ^ 0x80) ^ 0x80 == y;
  }

  lemma InjectiveU8(a: Key, b: Key)
    requires a.U8? && b.U8? && Transform(a) == Transform(b)
    ensures a == b
  {
    hide Memory8;
    Injective8(a.u8, b.u8);
  }

  lemma InjectiveI8(a: Key, b: Key)
    requires a.I8? && b.I8? && Transform(a) == Transform(b)
    ensures a == b
  {
    hide Memory8;
    Injective8(a.i8, b.i8);
  }

  lemma InjectiveU16(a: Key, b: Key)
    requires a.U16? && b.U16? && Transform(a) == Transform(b)
    ensures a == b
  {
    hide Memory16, ByteSwap16;
    SwapInjective16(a.u16, b.u16);
  }

  lemma InjectiveI16(a: Key, b: Key)
    requires a.I16? && b.I16? && Transform(a) == Transform(b)
    ensures a == b
  {
    hide Memory16, ByteSwap16, SignedByteSwap16;
    SignedInjective16(a.i16, b.i16);
  }

  lemma InjectiveU32(a: Key, b: Key)
    requires a.U32? && b.U32? && Transform(a) == Transform(b)
    ensures a == b
  {
    hide Memory32, ByteSwap32;
    SwapInjective32(a.u32, b.u32);
  }

  lemma InjectiveI32(a: Key, b: Key)
    requires a.I32? && b.I32? && Transform(a) == Transform(b)
    ensures a == b
  {
    hide Memory32, ByteSwap32, SignedByteSwap32;
    SignedInjective32(a.i32, b.i32);
  }

  lemma InjectiveU64(a: Key, b: Key)
    requires a.U64? && b.U64? && Transform(a) == Transform(b)
    ensures a == b
  {
    hide Memory64, ByteSwap64;
    SwapInjective64(a.u64, b.u64);
  }

  lemma InjectiveI64(a: Key, b: Key)
    requires a.I64? && b.I64? && Transform(a) == Transform(b)
    ensures a == b
  {
    hide Memory64, ByteSwap64, SignedByteSwap64;
    SignedInjective64(a.i64, b.i64);
  }

  /** Transformed integers are equal only for equal keys. */
  lemma IntegerInjective(a: Key, b: Key)
    requires !a.Pair? && SameType(a, b) && Transform(a) == Transform(b)
    ensures a == b
  {
    hide Transform;
    match a
    case U8(_) => InjectiveU8(a, b);
    case U16(_) => InjectiveU16(a, b);
    case U32(_) => InjectiveU32(a, b);
    case U64(_) => InjectiveU64(a, b);
    case I8(_) => InjectiveI8(a, b);
    case I16(_) => InjectiveI16(a, b);
    case I32(_) => InjectiveI32(a, b);
    case I64(_) => InjectiveI64(a, b);
  }

  /** key_transform is an order isomorphism from keys of one type into byte strings under memcmp. */
  lemma {:induction false} TransformIsOrderIso(a: Key, b: Key)
    requires SameType(a, b)
    ensures |Transform(a)| == |Transform(b)|
    ensures KeyLess(a, b) <==> Less(Transform(a), Transform(b))
    ensures a == b <==> Transform(a) == Transform(b)
  {
    hide Less;
    SameSize(a, b);
    if a.Pair? {
      TransformIsOrderIso(a.first, b.first);
      TransformIsOrderIso(a.second, b.second);
      LessConcat(Transform(a.first), Transform(b.first), Transform(a.second), Transform(b.second));
    } else {
      IntegerTransform(a);
      IntegerTransform(b);
      LessIsNumeric(Transform(a), Transform(b));
      if Transform(a) == Transform(b) { IntegerInjective(a, b); }
    }
  }

  // ---- The methods ----

  /** std::move of all of src to dst from position at on. */
  method MoveTo(src: array<Byte>, dst: array<Byte>, at: nat)
    requires at + src.Length <= dst.Length && src != dst
    modifies dst
    ensures dst[..at] == old(dst[..at]) && dst[at..at + src.Length] == src[..]
    ensures dst[at + src.Length..] == old(dst[at + src.Length..])
  {
    for i := 0 to src.Length
      invariant forall j :: 0 <= j < dst.Length ==>
        dst[j] == if at <= j < at + i then src[j - at] else old(dst[j])
    {
      dst[at + i] := src[i];
    }
  }

  method Concat(first: array<Byte>, second: array<Byte>) returns (bytes: array<Byte>)
    ensures fresh(bytes) && bytes[..] == first[..] + second[..]
  {
    bytes := new Byte[first.Length + second.Length](_ => 0);
    MoveTo(first, bytes, 0);
    assert bytes[..first.Length] == first[..];
    MoveTo(second, bytes, first.Length);
    assert bytes[..] == bytes[..first.Length] + bytes[first.Length..];
    assert bytes[first.Length..] == bytes[first.Length..first.Length + second.Length];
  }

  /** The call operator of key_transform: the bytes of the two parts of a pair go one behind the other. */
  method TransformKey(k: Key) returns (bytes: array<Byte>)
    ensures fresh(bytes) && bytes.Length == Width(k) && bytes[..] == Transform(k)
  {
    TransformWidth(k);
    if k.Pair? {
      var first := TransformKey(k.first);
      var second := TransformKey(k.second);
      bytes := Concat(first, second);
    } else {
      var t := Transform(k);
      bytes := new Byte[|t|](i requires 0 <= i < |t| => t[i]);
    }
  }

  /** radix_map's value_compare: the bytes of the transformed keys decide as operator< on the keys does. */
  method ValueCompare(x: Key, y: Key) returns (less: bool)
    requires SameType(x, y)
    ensures less <==> KeyLess(x, y)
  {
    hide Less, Transform;
    var xKey := TransformKey(x);
    var yKey := TransformKey(y);
    TransformIsOrderIso(x, y);
    ghost var a, b := Transform(x), Transform(y);
    for i := 0 to xKey.Length
      invariant xKey[..] == a && yKey[..] == b && a[..i] == b[..i]
    {
      assert a[i] == xKey[i] && b[i] == yKey[i];
      DecidedAt(a, b, i);
      if xKey[i] < yKey[i] {
        return true;
      }
      if xKey[i] > yKey[i] {
        return false;
      }
    }
    assert a == a[..xKey.Length] && b == b[..xKey.Length];
    LessIrreflexive(a);
    return false;
  }

  lemma DecidedAt(a: Str, b: Str, i: nat)
    requires |a| == |b| && i < |a| && a[..i] == b[..i]
    ensures a[i] != b[i] ==> (Less(a, b) <==> a[i] < b[i])
  {
    if a[i] != b[i] { LcpUnique(a, b, i); }
  }

  // ---- The numbers of words, against the order of bit-vectors ----

  /** All but the lowest byte. */
  function High(u: bv64): bv64 { u >> 8 }

  predicate WordLess(u: bv64, v: bv64) { u < v }

  lemma HighLess(u: bv64, v: bv64)
    requires WordLess(High(u), High(v))
    ensures WordLess(u, v)
  {
  }

  lemma MaskLess(u: bv64, v: bv64)
    requires High(u) == High(v) && u & 0xFF < v & 0xFF
    ensures WordLess(u, v)
  {
  }

  lemma LowLess(u: bv64, v: bv64)
    requires High(u) == High(v) && Low64(u) < Low64(v)
    ensures WordLess(u, v)
  {
    hide Low64, WordLess, High;
    LowByteLess(u, v);
    MaskLess(u, v);
  }

  lemma MaskSame(u: bv64, v: bv64)
    requires High(u) == High(v) && u & 0xFF == v & 0xFF
    ensures u == v
  {
  }

  lemma LowSame(u: bv64, v: bv64)
    requires High(u) == High(v) && Low64(u) == Low64(v)
    ensures u == v
  {
    hide Low64, WordLess, High;
    LowByteLess(u, v);
    MaskSame(u, v);
  }

  lemma OneLess(u: bv64, v: bv64)
    requires WordLess(u, v)
    ensures !WordLess(v, u) && u != v
  {
  }

  lemma Low8Less(x: bv8, y: bv8)
    ensures x < y <==> Low8(x) < Low8(y)
  {
  }

  lemma LowByteLess(u: bv64, v: bv64)
    ensures Low64(u) < Low64(v) ==> u & 0xFF < v & 0xFF
    ensures Low64(u) == Low64(v) ==> u & 0xFF == v & 0xFF
  {
    hide Low8;
    var a, b := u & 0xFF, v & 0xFF;
    Low8Less(a as bv8, b as bv8);
    Low8Less(b as bv8, a as bv8);
    Narrow(a, b);
  }

  lemma Narrow(a: bv64, b: bv64)
    requires a <= 0xFF && b <= 0xFF
    ensures (a as bv8) < (b as bv8) ==> a < b
    ensures (a as bv8) == (b as bv8) ==> a == b
  {
  }

  /** The low n bytes of u, the least first. */
  function BytesOf(u: bv64, n: nat): Str {
    if n == 0 then [] else [Low64(u)] + BytesOf(High(u), n - 1)
  }

  /** u is nothing but its low n bytes. */
  predicate Fits(u: bv64, n: nat) {
    if n == 0 then u == 0 else Fits(High(u), n - 1)
  }

  lemma DigitsOf(u: bv64, n: nat)
    requires n > 0
    ensures LittleEndian(BytesOf(u, n)) == Low64(u) + 256 * LittleEndian(BytesOf(High(u), n - 1))
  {
    hide Low64, High;
    assert BytesOf(u, n)[1..] == BytesOf(High(u), n - 1);
  }

  lemma DigitLess(a: Byte, p: nat, b: Byte, q: nat)
    ensures a + 256 * p < b + 256 * q ==> p < q || (p == q && a < b)
    ensures a + 256 * p == b + 256 * q ==> p == q && a == b
  {
  }

  /** One byte more. */
  lemma LessByByte(u: bv64, v: bv64, p: nat, q: nat)
    requires p < q ==> WordLess(High(u), High(v))
    requires p == q ==> High(u) == High(v)
    ensures Low64(u) + 256 * p < Low64(v) + 256 * q ==> WordLess(u, v)
    ensures Low64(u) + 256 * p == Low64(v) + 256 * q ==> u == v
  {
    hide Low64, High, WordLess;
    DigitLess(Low64(u), p, Low64(v), q);
    if p < q {
      HighLess(u, v);
    } else if p == q {
      if Low64(u) < Low64(v) { LowLess(u, v); }
      if Low64(u) == Low64(v) { LowSame(u, v); }
    }
  }

  /** A smaller number is a smaller word. */
  lemma {:induction false} NumberLess(u: bv64, v: bv64, n: nat)
    requires Fits(u, n) && Fits(v, n)
    ensures LittleEndian(BytesOf(u, n)) < LittleEndian(BytesOf(v, n)) ==> WordLess(u, v)
    ensures LittleEndian(BytesOf(u, n)) == LittleEndian(BytesOf(v, n)) ==> u == v
    decreases n
  {
    hide Low64, LittleEndian, High, WordLess;
    if n > 0 {
      NumberLess(High(u), High(v), n - 1);
      DigitsOf(u, n);
      DigitsOf(v, n);
      LessByByte(u, v, LittleEndian(BytesOf(High(u), n - 1)), LittleEndian(BytesOf(High(v), n - 1)));
    }
  }

  lemma Shifts64(x: bv64)
    ensures High(High(x)) == x >> 16 && High(x >> 16) == x >> 24 && High(x >> 24) == x >> 32 && High(x >> 32) == x >> 40
    ensures High(x >> 40) == x >> 48 && High(x >> 48) == x >> 56 && High(x >> 56) == 0
  {
  }

  lemma Bytes64(x: bv64)
    ensures Memory64(x) == BytesOf(x, 8) && Fits(x, 8)
  {
    hide Low64;
    assert High(x) == x >> 8;
    Shifts64(x);
    hide High;
    BytesStep(x, 8);
    BytesStep(x >> 8, 7);
    BytesStep(x >> 16, 6);
    BytesStep(x >> 24, 5);
    BytesStep(x >> 32, 4);
    BytesStep(x >> 40, 3);
    BytesStep(x >> 48, 2);
    BytesStep(x >> 56, 1);
  }

  lemma BytesStep(u: bv64, n: nat)
    requires n > 0
    ensures BytesOf(u, n) == [Low64(u)] + BytesOf(High(u), n - 1) && (Fits(u, n) <==> Fits(High(u), n - 1))
    ensures BytesOf(High(u), 0) == [] && (High(u) == 0 ==> Fits(High(u), 0))
  {
  }

  lemma Wide32(x: bv32, w: bv64)
    requires w == x as bv64
    ensures Low32(x) == Low64(w) && Low32(x >> 8) == Low64(w >> 8) && Low32(x >> 16) == Low64(w >> 16)
      && Low32(x >> 24) == Low64(w >> 24)
    ensures w >> 32 == 0
  {
    hide Low8;
  }

  lemma WideMemory32(x: bv32, w: bv64)
    requires Low32(x) == Low64(w) && Low32(x >> 8) == Low64(w >> 8) && Low32(x >> 16) == Low64(w >> 16)
      && Low32(x >> 24) == Low64(w >> 24)
    ensures Memory32(x) == [Low64(w), Low64(w >> 8), Low64(w >> 16), Low64(w >> 24)]
  {
    hide Low64, Low32;
  }

  lemma FourBytes(w: bv64)
    requires w >> 32 == 0
    ensures BytesOf(w, 4) == [Low64(w), Low64(w >> 8), Low64(w >> 16), Low64(w >> 24)] && Fits(w, 4)
  {
    hide Low64;
    assert High(w) == w >> 8;
    Shifts64(w);
    hide High;
    BytesStep(w, 4);
    BytesStep(w >> 8, 3);
    BytesStep(w >> 16, 2);
    BytesStep(w >> 24, 1);
  }

  lemma Bytes32(x: bv32, w: bv64)
    requires w == x as bv64
    ensures Memory32(x) == BytesOf(w, 4) && Fits(w, 4)
  {
    hide Low64, Low32, BytesOf, Fits, Memory32;
    Wide32(x, w);
    WideMemory32(x, w);
    FourBytes(w);
  }

  lemma Wide16(x: bv16)
    ensures var w := x as bv64; Low16(x) == Low64(w) && Low16(x >> 8) == Low64(w >> 8) && w >> 16 == 0
  {
    hide Low8;
  }

  lemma Bytes16(x: bv16)
    ensures Memory16(x) == BytesOf(x as bv64, 2) && Fits(x as bv64, 2)
  {
    hide Low64, Low16;
    var w := x as bv64;
    assert High(w) == w >> 8;
    Shifts64(w);
    Wide16(x);
    hide High;
    BytesStep(w, 2);
    BytesStep(w >> 8, 1);
  }

  lemma WideLess32(x: bv32, y: bv32)
    ensures WordLess(x as bv64, y as bv64) ==> x < y
    ensures x as bv64 == y as bv64 ==> x == y
  {
  }

  lemma WideLess16(x: bv16, y: bv16)
    ensures WordLess(x as bv64, y as bv64) ==> x < y
    ensures x as bv64 == y as bv64 ==> x == y
  {
  }

  lemma Only32(x: bv32, y: bv32)
    requires x < y
    ensures !(y < x) && x != y
  {
  }

  lemma Only16(x: bv16, y: bv16)
    requires x < y
    ensures !(y < x) && x != y
  {
  }

  lemma Order16(x: bv16, y: bv16)
    ensures LittleEndian(Memory16(x)) < LittleEndian(Memory16(y)) ==> x < y
    ensures x < y ==> LittleEndian(Memory16(x)) < LittleEndian(Memory16(y))
  {
    hide LittleEndian, Memory16, WordLess;
    Bytes16(x);
    Bytes16(y);
    NumberLess(x as bv64, y as bv64, 2);
    NumberLess(y as bv64, x as bv64, 2);
    WideLess16(x, y);
    WideLess16(y, x);
    if x < y { Only16(x, y); }
  }

  lemma Order32(x: bv32, y: bv32)
    ensures LittleEndian(Memory32(x)) < LittleEndian(Memory32(y)) ==> x < y
    ensures x < y ==> LittleEndian(Memory32(x)) < LittleEndian(Memory32(y))
  {
    hide LittleEndian, Memory32, WordLess;
    Bytes32(x, x as bv64);
    Bytes32(y, y as bv64);
    NumberLess(x as bv64, y as bv64, 4);
    NumberLess(y as bv64, x as bv64, 4);
    WideLess32(x, y);
    WideLess32(y, x);
    if x < y { Only32(x, y); }
  }

  lemma Order64(x: bv64, y: bv64)
    ensures LittleEndian(Memory64(x)) < LittleEndian(Memory64(y)) ==> x < y
    ensures x < y ==> LittleEndian(Memory64(x)) < LittleEndian(Memory64(y))
  {
    hide LittleEndian, Memory64;
    Bytes64(x);
    Bytes64(y);
    NumberLess(x, y, 8);
    NumberLess(y, x, 8);
    if x < y { OneLess(x, y); }
  }

  lemma Order8(x: bv8, y: bv8)
    ensures LittleEndian(Memory8(x)) < LittleEndian(Memory8(y)) ==> x < y
    ensures x < y ==> LittleEndian(Memory8(x)) < LittleEndian(Memory8(y))
  {
    hide Low8;
    Low8Less(x, y);
  }

  lemma FlipNumbers(s: Str, t: Str, s': Str, t': Str)
    requires |s| == |t| > 0 && s' == FlipTop(s) && t' == FlipTop(t)
    ensures TwosComplement(s) < TwosComplement(t) <==> LittleEndian(s') < LittleEndian(t')
  {
    hide LittleEndian, TwosComplement, FlipTop, Pow256;
    FlipAdds(s);
    FlipAdds(t);
  }

  predicate Unsigned8Less(x: bv8, y: bv8) { x < y }

  /** operator< of the signed type: by sign, and as unsigned words when the signs agree. */
  predicate Signed8Less(x: bv8, y: bv8) {
    if x & 0x80 != y & 0x80 then x & 0x80 != 0 else x < y
  }

  lemma FlipLess8(x: bv8, y: bv8, p: bv8, q: bv8)
    requires p == x ^ 0x80 && q == y ^ 0x80
    ensures Signed8Less(x, y) ==> Unsigned8Less(p, q)
    ensures Unsigned8Less(p, q) ==> Signed8Less(x, y)
  {
  }

  lemma UnsignedOrder8(x: bv8, y: bv8)
    ensures LittleEndian(Memory8(x)) < LittleEndian(Memory8(y)) <==> Unsigned8Less(x, y)
  {
    hide LittleEndian, Memory8;
    Order8(x, y);
  }

  lemma FlipMemory8(x: bv8, p: bv8)
    requires p == x ^ 0x80
    ensures Memory8(p) == FlipTop(Memory8(x))
  {
    hide Memory8, FlipTop;
    Flip8(x);
  }

  lemma SignedOrder8(x: bv8, y: bv8, p: bv8, q: bv8)
    requires p == x ^ 0x80 && q == y ^ 0x80
    ensures TwosComplement(Memory8(x)) < TwosComplement(Memory8(y)) <==> Signed8Less(x, y)
  {
    hide LittleEndian, TwosComplement, FlipTop, Signed8Less, Unsigned8Less, Low8;
    FlipMemory8(x, p);
    FlipMemory8(y, q);
    FlipNumbers(Memory8(x), Memory8(y), Memory8(p), Memory8(q));
    FlipLess8(x, y, p, q);
    UnsignedOrder8(p, q);
  }

  predicate Unsigned16Less(x: bv16, y: bv16) { x < y }

  /** operator< of the signed type: by sign, and as unsigned words when the signs agree. */
  predicate Signed16Less(x: bv16, y: bv16) {
    if x & 0x8000 != y & 0x8000 then x & 0x8000 != 0 else x < y
  }

  lemma FlipLess16(x: bv16, y: bv16, p: bv16, q: bv16)
    requires p == x ^ 0x8000 && q == y ^ 0x8000
    ensures Signed16Less(x, y) ==> Unsigned16Less(p, q)
    ensures Unsigned16Less(p, q) ==> Signed16Less(x, y)
  {
  }

  lemma UnsignedOrder16(x: bv16, y: bv16)
    ensures LittleEndian(Memory16(x)) < LittleEndian(Memory16(y)) <==> Unsigned16Less(x, y)
  {
    hide LittleEndian, Memory16;
    Order16(x, y);
  }

  lemma FlipMemory16(x: bv16, p: bv16)
    requires p == x ^ 0x8000
    ensures Memory16(p) == FlipTop(Memory16(x))
  {
    hide Memory16, FlipTop;
    Flip16(x);
  }

  lemma SignedOrder16(x: bv16, y: bv16, p: bv16, q: bv16)
    requires p == x ^ 0x8000 && q == y ^ 0x8000
    ensures TwosComplement(Memory16(x)) < TwosComplement(Memory16(y)) <==> Signed16Less(x, y)
  {
    hide LittleEndian, TwosComplement, FlipTop, Signed16Less, Unsigned16Less, Low16;
    FlipMemory16(x, p);
    FlipMemory16(y, q);
    FlipNumbers(Memory16(x), Memory16(y), Memory16(p), Memory16(q));
    FlipLess16(x, y, p, q);
    UnsignedOrder16(p, q);
  }

  predicate Unsigned32Less(x: bv32, y: bv32) { x < y }

  /** operator< of the signed type: by sign, and as unsigned words when the signs agree. */
  predicate Signed32Less(x: bv32, y: bv32) {
    if x & 0x8000_0000 != y & 0x8000_0000 then x & 0x8000_0000 != 0 else x < y
  }

  lemma FlipLess32(x: bv32, y: bv32, p: bv32, q: bv32)
    requires p == x ^ 0x8000_0000 && q == y ^ 0x8000_0000
    ensures Signed32Less(x, y) ==> Unsigned32Less(p, q)
    ensures Unsigned32Less(p, q) ==> Signed32Less(x, y)
  {
  }

  lemma UnsignedOrder32(x: bv32, y: bv32)
    ensures LittleEndian(Memory32(x)) < LittleEndian(Memory32(y)) <==> Unsigned32Less(x, y)
  {
    hide LittleEndian, Memory32;
    Order32(x, y);
  }

  lemma FlipMemory32(x: bv32, p: bv32)
    requires p == x ^ 0x8000_0000
    ensures Memory32(p) == FlipTop(Memory32(x))
  {
    hide Memory32, FlipTop;
    Flip32(x);
  }

  lemma SignedOrder32(x: bv32, y: bv32, p: bv32, q: bv32)
    requires p == x ^ 0x8000_0000 && q == y ^ 0x8000_0000
    ensures TwosComplement(Memory32(x)) < TwosComplement(Memory32(y)) <==> Signed32Less(x, y)
  {
    hide LittleEndian, TwosComplement, FlipTop, Signed32Less, Unsigned32Less, Low32;
    FlipMemory32(x, p);
    FlipMemory32(y, q);
    FlipNumbers(Memory32(x), Memory32(y), Memory32(p), Memory32(q));
    FlipLess32(x, y, p, q);
    UnsignedOrder32(p, q);
  }

  predicate Unsigned64Less(x: bv64, y: bv64) { x < y }

  /** operator< of the signed type: by sign, and as unsigned words when the signs agree. */
  predicate Signed64Less(x: bv64, y: bv64) {
    if x & 0x8000_0000_0000_0000 != y & 0x8000_0000_0000_0000 then x & 0x8000_0000_0000_0000 != 0 else x < y
  }

  lemma FlipLess64(x: bv64, y: bv64, p: bv64, q: bv64)
    requires p == x ^ 0x8000_0000_0000_0000 && q == y ^ 0x8000_0000_0000_0000
    ensures Signed64Less(x, y) ==> Unsigned64Less(p, q)
    ensures Unsigned64Less(p, q) ==> Signed64Less(x, y)
  {
  }

  lemma UnsignedOrder64(x: bv64, y: bv64)
    ensures LittleEndian(Memory64(x)) < LittleEndian(Memory64(y)) <==> Unsigned64Less(x, y)
  {
    hide LittleEndian, Memory64;
    Order64(x, y);
  }

  lemma FlipMemory64(x: bv64, p: bv64)
    requires p == x ^ 0x8000_0000_0000_0000
    ensures Memory64(p) == FlipTop(Memory64(x))
  {
    hide Memory64, FlipTop;
    Flip64(x);
  }

  lemma SignedOrder64(x: bv64, y: bv64, p: bv64, q: bv64)
    requires p == x ^ 0x8000_0000_0000_0000 && q == y ^ 0x8000_0000_0000_0000
    ensures TwosComplement(Memory64(x)) < TwosComplement(Memory64(y)) <==> Signed64Less(x, y)
  {
    hide LittleEndian, TwosComplement, FlipTop, Signed64Less, Unsigned64Less, Low64;
    FlipMemory64(x, p);
    FlipMemory64(y, q);
    FlipNumbers(Memory64(x), Memory64(y), Memory64(p), Memory64(q));
    FlipLess64(x, y, p, q);
    UnsignedOrder64(p, q);
  }

  /** operator< on the machine words of two integer keys. */
  predicate WordsLess(a: Key, b: Key)
    requires SameType(a, b) && !a.Pair?
  {
    match a
    case U8(x) => Unsigned8Less(x, b.u8) case U16(x) => Unsigned16Less(x, b.u16)
    case U32(x) => Unsigned32Less(x, b.u32) case U64(x) => Unsigned64Less(x, b.u64)
    case I8(x) => Signed8Less(x, b.i8) case I16(x) => Signed16Less(x, b.i16)
    case I32(x) => Signed32Less(x, b.i32) case I64(x) => Signed64Less(x, b.i64)
  }

  /** The numbers of integer keys are ordered as their words are, unsigned or signed. */
  lemma NumberOrder(a: Key, b: Key)
    requires SameType(a, b) && !a.Pair?
    ensures Number(a) < Number(b) <==> WordsLess(a, b)
  {
    hide LittleEndian, TwosComplement, Memory8, Memory16, Memory32, Memory64, Signed8Less, Signed16Less, Signed32Less,
      Signed64Less,
      Unsigned8Less, Unsigned16Less, Unsigned32Less, Unsigned64Less;
    match a
    case U8(x) => UnsignedOrder8(x, b.u8);
    case U16(x) => UnsignedOrder16(x, b.u16);
    case U32(x) => UnsignedOrder32(x, b.u32);
    case U64(x) => UnsignedOrder64(x, b.u64);
    case I8(x) => SignedOrder8(x, b.i8, x ^ 0x80, b.i8 ^ 0x80);
    case I16(x) => SignedOrder16(x, b.i16, x ^ 0x8000, b.i16 ^ 0x8000);
    case I32(x) => SignedOrder32(x, b.i32, x ^ 0x8000_0000, b.i32 ^ 0x8000_0000);
    case I64(x) => SignedOrder64(x, b.i64, x ^ 0x8000_0000_0000_0000, b.i64 ^ 0x8000_0000_0000_0000);
  }

  // ---- Pairs of words are stored as the words they make up ----

  /** sizeof the key, in bytes. */
  function Width(k: Key): (w: nat)
    ensures w > 0
  {
    match k
    case U8(_) => 1 case U16(_) => 2 case U32(_) => 4 case U64(_) => 8
    case I8(_) => 1 case I16(_) => 2 case I32(_) => 4 case I64(_) => 8
    case Pair(x, y) => Width(x) + Width(y)
  }

  lemma {:induction false} TransformWidth(k: Key)
    ensures |Transform(k)| == Width(k)
  {
    hide Low8, Low16, Low32, Low64, ByteSwap16, ByteSwap32, ByteSwap64, SignedByteSwap16, SignedByteSwap32, SignedByteSwap64;
    if k.Pair? {
      TransformWidth(k.first);
      TransformWidth(k.second);
    }
  }

  lemma {:induction false} BigEndianConcat(s: Str, t: Str)
    ensures BigEndian(s + t) == BigEndian(s) * Pow256(|t|) + BigEndian(t)
  {
    if |s| == 0 {
      assert s + t == t;
    } else {
      assert (s + t)[1..] == s[1..] + t;
      BigEndianConcat(s[1..], t);
      PowSum(|s| - 1, |t|);
      Shifted(s[0], Pow256(|s| - 1), Pow256(|t|), BigEndian(s[1..]));
    }
  }

  lemma Shifted(d: nat, p: nat, q: nat, r: nat)
    ensures d * (p * q) + r * q == (d * p + r) * q
  {
  }

  lemma {:induction false} PowSum(m: nat, n: nat)
    ensures Pow256(m + n) == Pow256(m) * Pow256(n)
  {
    if m > 0 { PowSum(m - 1, n); }
  }

  /** As a big-endian number a pair is its first part shifted by the width of its second, plus the second. */
  lemma PairNumber(x: Key, y: Key)
    ensures BigEndian(Transform(Pair(x, y))) == BigEndian(Transform(x)) * Pow256(Width(y)) + BigEndian(Transform(y))
  {
    hide BigEndian, Pow256, Width;
    TransformWidth(y);
    PairIsConcat(x, y);
    BigEndianConcat(Transform(x), Transform(y));
  }

  lemma PairIsConcat(x: Key, y: Key)
    ensures Transform(Pair(x, y)) == Transform(x) + Transform(y)
  {
  }

  lemma {:induction false} ReverseConcat(s: Str, t: Str)
    ensures Reverse(s + t) == Reverse(t) + Reverse(s)
  {
    if |s| == 0 {
      assert s + t == t;
    } else {
      assert (s + t)[1..] == s[1..] + t;
      ReverseConcat(s[1..], t);
    }
  }

  lemma {:induction false} LittleEndianConcat(s: Str, t: Str)
    ensures LittleEndian(s + t) == LittleEndian(s) + Pow256(|s|) * LittleEndian(t)
  {
    if |s| == 0 {
      assert s + t == t;
    } else {
      assert (s + t)[1..] == s[1..] + t;
      LittleEndianConcat(s[1..], t);
    }
  }

  function Join16(h: bv8, l: bv8): bv16 { ((h as bv16) << 8) | (l as bv16) }

  lemma JoinMemory16(h: bv8, l: bv8)
    ensures Memory16(Join16(h, l)) == Memory8(l) + Memory8(h)
  {
    hide Low8;
    JoinLows16(h, l);
  }

  lemma JoinLows16(h: bv8, l: bv8)
    ensures (Join16(h, l) & 0xFF) as bv8 == l && ((Join16(h, l) >> 8) & 0xFF) as bv8 == h
  {
  }

  /** A pair of unsigned words is stored as the word that they make up. */
  lemma PairIsWord16(h: bv8, l: bv8)
    ensures Number(U16(Join16(h, l))) == 256 * Number(U8(h)) + Number(U8(l))
    ensures Transform(Pair(U8(h), U8(l))) == Transform(U16(Join16(h, l)))
  {
    hide LittleEndian, Reverse, Join16, Memory16, ByteSwap16, Low8;
    JoinMemory16(h, l);
    LittleEndianConcat(Memory8(l), Memory8(h));
    MemorySize8(l);
    assert Pow256(1) == 256 by { Powers(); }
    SwapReverses16(Join16(h, l));
    ReverseConcat(Memory8(l), Memory8(h));
    ReverseOne(h);
    ReverseOne(l);
  }

  /** So pairs of unsigned words are in the order of the words that they make up. */
  lemma PairOrder16(h: bv8, l: bv8, h': bv8, l': bv8)
    ensures KeyLess(Pair(U8(h), U8(l)), Pair(U8(h'), U8(l'))) <==> KeyLess(U16(Join16(h, l)), U16(Join16(h', l')))
  {
    hide Transform, KeyLess, Number, Less, Join16;
    PairIsWord16(h, l);
    PairIsWord16(h', l');
    TransformIsOrderIso(Pair(U8(h), U8(l)), Pair(U8(h'), U8(l')));
    TransformIsOrderIso(U16(Join16(h, l)), U16(Join16(h', l')));
  }

  lemma MemorySize8(x: bv8)
    ensures |Memory8(x)| == 1
  {
    hide Low8;
  }

  function Join32(h: bv16, l: bv16): bv32 { ((h as bv32) << 16) | (l as bv32) }

  lemma JoinMemory32(h: bv16, l: bv16)
    ensures Memory32(Join32(h, l)) == Memory16(l) + Memory16(h)
  {
    hide Low8, Join32;
    JoinLows32(h, l);
  }

  lemma JoinLows32(h: bv16, l: bv16)
    ensures (Join32(h, l) & 0xFF) as bv8 == (l & 0xFF) as bv8 && ((Join32(h, l) >> 8) & 0xFF) as bv8 == ((l >> 8) & 0xFF) as bv8
    ensures ((Join32(h, l) >> 16) & 0xFF) as bv8 == (h & 0xFF) as bv8
      && ((Join32(h, l) >> 24) & 0xFF) as bv8 == ((h >> 8) & 0xFF) as bv8
  {
  }

  /** A pair of unsigned words is stored as the word that they make up. */
  lemma PairIsWord32(h: bv16, l: bv16)
    ensures Number(U32(Join32(h, l))) == 65536 * Number(U16(h)) + Number(U16(l))
    ensures Transform(Pair(U16(h), U16(l))) == Transform(U32(Join32(h, l)))
  {
    hide LittleEndian, Reverse, Join32, Memory32, ByteSwap32, Memory16, ByteSwap16;
    JoinMemory32(h, l);
    LittleEndianConcat(Memory16(l), Memory16(h));
    MemorySize16(l);
    assert Pow256(2) == 65536 by { Powers(); }
    SwapReverses32(Join32(h, l));
    ReverseConcat(Memory16(l), Memory16(h));
    SwapReverses16(h);
    SwapReverses16(l);
  }

  /** So pairs of unsigned words are in the order of the words that they make up. */
  lemma PairOrder32(h: bv16, l: bv16, h': bv16, l': bv16)
    ensures KeyLess(Pair(U16(h), U16(l)), Pair(U16(h'), U16(l'))) <==> KeyLess(U32(Join32(h, l)), U32(Join32(h', l')))
  {
    hide Transform, KeyLess, Number, Less, Join32;
    PairIsWord32(h, l);
    PairIsWord32(h', l');
    TransformIsOrderIso(Pair(U16(h), U16(l)), Pair(U16(h'), U16(l')));
    TransformIsOrderIso(U32(Join32(h, l)), U32(Join32(h', l')));
  }

  lemma MemorySize16(x: bv16)
    ensures |Memory16(x)| == 2
  {
    hide Low16;
  }

  function Join64(h: bv32, l: bv32): bv64 { ((h as bv64) << 32) | (l as bv64) }

  lemma JoinMemory64(h: bv32, l: bv32)
    ensures Memory64(Join64(h, l)) == Memory32(l) + Memory32(h)
  {
    hide Low8, Join64;
    JoinLows64(h, l);
  }

  lemma JoinLows64(h: bv32, l: bv32)
    ensures var w := Join64(h, l);
      && (w & 0xFF) as bv8 == (l & 0xFF) as bv8 && ((w >> 8) & 0xFF) as bv8 == ((l >> 8) & 0xFF) as bv8
      && ((w >> 16) & 0xFF) as bv8 == ((l >> 16) & 0xFF) as bv8 && ((w >> 24) & 0xFF) as bv8 == ((l >> 24) & 0xFF) as bv8
      && ((w >> 32) & 0xFF) as bv8 == (h & 0xFF) as bv8 && ((w >> 40) & 0xFF) as bv8 == ((h >> 8) & 0xFF) as bv8
      && ((w >> 48) & 0xFF) as bv8 == ((h >> 16) & 0xFF) as bv8 && ((w >> 56) & 0xFF) as bv8 == ((h >> 24) & 0xFF) as bv8
  {
  }

  /** A pair of unsigned words is stored as the word that they make up. */
  lemma PairIsWord64(h: bv32, l: bv32)
    ensures Number(U64(Join64(h, l))) == 4294967296 * Number(U32(h)) + Number(U32(l))
    ensures Transform(Pair(U32(h), U32(l))) == Transform(U64(Join64(h, l)))
  {
    hide LittleEndian, Reverse, Join64, Memory64, ByteSwap64, Memory32, ByteSwap32;
    JoinMemory64(h, l);
    LittleEndianConcat(Memory32(l), Memory32(h));
    MemorySize32(l);
    assert Pow256(4) == 4294967296 by { Powers(); }
    SwapReverses64(Join64(h, l));
    ReverseConcat(Memory32(l), Memory32(h));
    SwapReverses32(h);
    SwapReverses32(l);
  }

  /** So pairs of unsigned words are in the order of the words that they make up. */
  lemma PairOrder64(h: bv32, l: bv32, h': bv32, l': bv32)
    ensures KeyLess(Pair(U32(h), U32(l)), Pair(U32(h'), U32(l'))) <==> KeyLess(U64(Join64(h, l)), U64(Join64(h', l')))
  {
    hide Transform, KeyLess, Number, Less, Join64;
    PairIsWord64(h, l);
    PairIsWord64(h', l');
    TransformIsOrderIso(Pair(U32(h), U32(l)), Pair(U32(h'), U32(l')));
    TransformIsOrderIso(U64(Join64(h, l)), U64(Join64(h', l')));
  }

  lemma MemorySize32(x: bv32)
    ensures |Memory32(x)| == 4
  {
    hide Low32;
  }

  lemma ReverseOne(x: bv8)
    ensures Reverse(Memory8(x)) == Memory8(x)
  {
    hide Low8;
    assert Memory8(x)[1..] == [];
  }

  lemma Powers()
    ensures Pow256(1) == 256 && Pow256(2) == 65536 && Pow256(4) == 4294967296
  {
    assert Pow256(0) == 1;
    assert Pow256(1) == 256;
    assert Pow256(2) == 65536;
    assert Pow256(3) == 16777216;
  }
}
