/** The compact form of difficulty targets, a floating-point number to base 256 with a 23-bit mantissa, and the retarget
    rule that stores its result in it. Big numbers are mathematical integers. */
module Compact {
  import opened Common

  type UInt32 = n: nat | n < 0x1_0000_0000

  // ---------------------------------------------------------------- bytes

  function Pow256(k: nat): (p: nat)
    ensures p > 0
  {
    if k == 0 then 1 else 256 * Pow256(k - 1)
  }

  /** BN_num_bytes. */
  function Bytes(n: nat): nat {
    if n == 0 then 0 else 1 + Bytes(n / 256)
  }

  lemma {:induction false} BytesBounds(n: nat)
    ensures n < Pow256(Bytes(n)) && (n > 0 ==> Pow256(Bytes(n) - 1) <= n)
  {
    if n > 0 {
      BytesBounds(n / 256);
    }
  }

  lemma {:induction false} PowMonotone(j: nat, k: nat)
    requires j <= k
    ensures Pow256(j) <= Pow256(k)
    decreases k - j
  {
    if j < k {
      PowMonotone(j + 1, k);
    }
  }

  lemma {:induction false} BytesUnique(n: nat, k: nat)
    requires Pow256(k) <= n < Pow256(k + 1)
    ensures Bytes(n) == k + 1
  {
    if k > 0 {
      assert Pow256(k) == 256 * Pow256(k - 1);
      BytesUnique(n / 256, k - 1);
    }
  }

  lemma {:induction false} BytesMonotone(m: nat, n: nat)
    requires m <= n
    ensures Bytes(m) <= Bytes(n)
  {
    if m > 0 {
      BytesMonotone(m / 256, n / 256);
    }
  }

  lemma SmallPowers()
    ensures Pow256(0) == 1 && Pow256(1) == 0x100 && Pow256(2) == 0x1_0000 && Pow256(3) == 0x100_0000
  {
  }

  // ---------------------------------------------------------------- division

  /** A quotient is at least k just when the dividend is at least k times the divisor. */
  lemma QuotientBound(n: nat, d: nat, k: nat)
    requires d > 0
    ensures n / d >= k <==> n >= k * d
  {
    Divided(n, d);
    var q := n / d;
    if q >= k {
      assert (q - k) * d >= 0;
    } else {
      assert (k - q - 1) * d >= 0;
    }
  }

  lemma QuotientOfQuotient(n: nat, d: nat)
    requires d > 0
    ensures n / d / 256 == n / (256 * d)
  {
    var p := n / d / 256;
    QuotientBound(n, d, 256 * p);
    QuotientBound(n, d, 256 * (p + 1));
    Regrouped(p, d);
    Regrouped(p + 1, d);
    QuotientBound(n, 256 * d, p);
    QuotientBound(n, 256 * d, p + 1);
  }

  lemma Regrouped(p: nat, d: nat)
    ensures 256 * p * d == p * (256 * d)
  {
  }

  lemma QuotientMonotone(m: nat, n: nat, d: nat)
    requires m <= n && d > 0
    ensures m / d <= n / d
  {
    QuotientBound(n, d, m / d);
    Divided(m, d);
  }

  // ---------------------------------------------------------------- shifts by whole bytes

  function ShiftUp(n: nat, k: nat): nat {
    n * Pow256(k)
  }

  function ShiftDown(n: nat, k: nat): nat {
    Divided(n, Pow256(k));
    n / Pow256(k)
  }

  lemma ShiftBound(n: nat, k: nat, c: nat)
    ensures ShiftDown(n, k) >= c <==> n >= ShiftUp(c, k)
  {
    hide Pow256;
    QuotientBound(n, Pow256(k), c);
  }

  lemma ShiftDownUp(m: nat, k: nat)
    ensures ShiftDown(ShiftUp(m, k), k) == m
  {
    hide Pow256;
    Quotient(ShiftUp(m, k), Pow256(k), m, 0);
  }

  lemma ShiftMonotone(a: nat, b: nat, k: nat)
    requires a <= b
    ensures ShiftUp(a, k) <= ShiftUp(b, k) && ShiftDown(a, k) <= ShiftDown(b, k)
  {
    hide Pow256;
    assert (b - a) * Pow256(k) >= 0;
    QuotientMonotone(a, b, Pow256(k));
  }

  lemma ShiftSum(a: nat, b: nat, k: nat)
    ensures ShiftUp(a + b, k) == ShiftUp(a, k) + ShiftUp(b, k)
  {
  }

  lemma ShiftScaled(a: nat, k: nat)
    ensures ShiftUp(0x8000 * a, k) == 0x8000 * ShiftUp(a, k) && ShiftUp(2 * a, k) == 2 * ShiftUp(a, k)
  {
  }

  /** A byte more is a factor of 256, up or down. */
  lemma ShiftMore(n: nat, k: nat)
    ensures ShiftDown(n, k) / 256 == ShiftDown(n, k + 1) && ShiftUp(256 * n, k) == ShiftUp(n, k + 1)
  {
    QuotientOfQuotient(n, Pow256(k));
  }

  lemma PowersShifted(k: nat)
    ensures Pow256(k + 1) == ShiftUp(0x100, k) && Pow256(k + 2) == ShiftUp(0x1_0000, k) && Pow256(k + 3) == ShiftUp(0x100_0000, k)
  {
  }

  // ---------------------------------------------------------------- the format

  function Abs(v: int): nat {
    if v < 0 then -v else v
  }

  /** Bytes with room for a sign bit: the exponent. */
  function Size(t: nat): nat {
    Bytes(2 * t)
  }

  /** The leading 23 bits or fewer, aligned to whole bytes. */
  function Mantissa(t: nat): nat {
    if Size(t) <= 3 then ShiftUp(t, 3 - Size(t)) else ShiftDown(t, Size(t) - 3)
  }

  lemma SizeBounds(t: nat, k: nat)
    ensures Size(t) == k + 3 ==> ShiftUp(0x8000, k) <= t < ShiftUp(0x80_0000, k)
    ensures ShiftUp(0x8000, k) <= t < ShiftUp(0x80_0000, k) ==> Size(t) == k + 3
  {
    hide ShiftUp, Pow256, Bytes;
    PowersShifted(k);
    ShiftScaled(0x8000, k);
    ShiftScaled(0x80_0000, k);
    BytesBounds(2 * t);
    ZeroBytes();
    if ShiftUp(0x8000, k) <= t < ShiftUp(0x80_0000, k) {
      BytesUnique(2 * t, k + 2);
    }
  }

  lemma MantissaFits(t: nat)
    ensures Mantissa(t) < 0x80_0000 && (Size(t) > 3 ==> Mantissa(t) >= 0x8000)
  {
    hide ShiftUp, ShiftDown, Bytes;
    if Size(t) > 3 {
      var k := Size(t) - 3;
      SizeBounds(t, k);
      ShiftBound(t, k, 0x8000);
      ShiftBound(t, k, 0x80_0000);
    } else {
      SmallMantissa(t);
    }
  }

  lemma SmallMantissa(t: nat)
    requires Size(t) <= 3
    ensures ShiftUp(t, 3 - Size(t)) < 0x80_0000 && ShiftDown(ShiftUp(t, 3 - Size(t)), 3 - Size(t)) == t
  {
    SmallPowers();
    BytesBounds(2 * t);
    ShiftDownUp(t, 3 - Size(t));
  }

  function Encoded(v: int): UInt32 {
    var t := Abs(v);
    MantissaFits(t);
    Size(t) % 256 * 0x100_0000 + Mantissa(t) + if v < 0 then 0x80_0000 else 0
  }

  function Decoded(nCompact: UInt32): int {
    var nSize, nWord := nCompact / 0x100_0000, nCompact % 0x80_0000;
    var t := if nSize <= 3 then ShiftDown(nWord, 3 - nSize) else ShiftUp(nWord, nSize - 3);
    if nCompact / 0x80_0000 % 2 == 1 then 0 - t else t
  }

  method SetCompact(nCompact: UInt32) returns (v: int)
    ensures v == Decoded(nCompact)
  {
    hide ShiftUp, ShiftDown;
    var nSize := nCompact / 0x100_0000;
    var fNegative := nCompact / 0x80_0000 % 2 == 1;
    var nWord: nat := nCompact % 0x80_0000;
    if nSize <= 3 {
      nWord := ShiftDown(nWord, 3 - nSize);
      v := nWord;
    } else {
      v := ShiftUp(nWord, nSize - 3);
    }
    if fNegative {
      v := -v;
    }
  }

  /** Three leading bytes of a number, the way GetCompact starts out. */
  function LeadingBytes(t: nat): nat {
    if Bytes(t) <= 3 then ShiftUp(t, 3 - Bytes(t)) else ShiftDown(t, Bytes(t) - 3)
  }

  /** The two ways to align, with and without room for a sign bit, agree once the top bit is dealt with. */
  lemma SignBitMoves(t: nat)
    ensures LeadingBytes(t) < 0x100_0000
    ensures if LeadingBytes(t) >= 0x80_0000 then Size(t) == Bytes(t) + 1 && Mantissa(t) == LeadingBytes(t) / 256
            else Size(t) == Bytes(t) && Mantissa(t) == LeadingBytes(t)
  {
    hide ShiftUp, ShiftDown, Pow256, Bytes;
    if Bytes(t) > 3 {
      TopBit(t, Bytes(t) - 3);
    } else {
      SmallTopBit(t);
    }
  }

  lemma TopBit(t: nat, k: nat)
    requires k > 0 && Bytes(t) == k + 3
    ensures LeadingBytes(t) < 0x100_0000
    ensures if LeadingBytes(t) >= 0x80_0000 then Size(t) == k + 4 && Mantissa(t) == LeadingBytes(t) / 256
            else Size(t) == k + 3 && Mantissa(t) == LeadingBytes(t)
  {
    hide ShiftUp, ShiftDown, Pow256, Bytes;
    BytesBounds(t);
    PowersShifted(k);
    ShiftBound(t, k, 0x100_0000);
    ShiftBound(t, k, 0x80_0000);
    ShiftMore(t, k);
    ShiftMore(0x8000, k);
    ShiftMore(0x80_0000, k);
    ShiftMonotone(0x8000, 0x1_0000, k);
    ShiftMonotone(0x100_0000, 0x8000_0000, k);
    SizeBounds(t, k);
    SizeBounds(t, k + 1);
  }

  lemma SmallTopBit(t: nat)
    requires Bytes(t) <= 3
    ensures LeadingBytes(t) < 0x100_0000
    ensures if LeadingBytes(t) >= 0x80_0000 then Size(t) == Bytes(t) + 1 && Mantissa(t) == LeadingBytes(t) / 256
            else Size(t) == Bytes(t) && Mantissa(t) == LeadingBytes(t)
  {
    hide Bytes;
    SmallPowers();
    BytesBounds(t);
    if t > 0 {
      var s := Bytes(t);
      assert s == 1 || s == 2 || s == 3;
      if 2 * t < Pow256(s) {
        BytesUnique(2 * t, s - 1);
      } else {
        assert Pow256(s + 1) == 256 * Pow256(s);
        BytesUnique(2 * t, s);
      }
    } else {
      assert Bytes(0) == 0 by { BytesBounds(0); ZeroBytes(); }
    }
  }

  lemma ZeroBytes()
    ensures Bytes(0) == 0
  {
  }

  method GetCompact(v: int) returns (nCompact: UInt32)
    ensures nCompact == Encoded(v)
  {
    hide Bytes, ShiftUp, ShiftDown, Size, Mantissa;
    var t := Abs(v);
    SignBitMoves(t);
    MantissaFits(t);
    var nSize := Bytes(t);
    var n: nat := 0;
    if nSize <= 3 {
      n := ShiftUp(t, 3 - nSize);
    } else {
      n := ShiftDown(t, nSize - 3);
    }
    if n / 0x80_0000 % 2 == 1 {
      n := n / 256;
      nSize := nSize + 1;
    }
    n := n + nSize % 256 * 0x100_0000;
    n := n + if v < 0 then 0x80_0000 else 0;
    nCompact := n;
  }

  // ---------------------------------------------------------------- what survives

  /** A target after a pass through the compact form. */
  function Truncated(t: nat): int {
    Decoded(Encoded(t))
  }

  lemma TruncatedIs(t: nat)
    requires Size(t) < 256
    ensures Truncated(t) == if Size(t) <= 3 then t else ShiftUp(Mantissa(t), Size(t) - 3)
  {
    hide Bytes, ShiftUp, ShiftDown;
    var L, m := Size(t), Mantissa(t);
    MantissaFits(t);
    Fields(L, m);
    if L <= 3 {
      SmallMantissa(t);
    }
  }

  lemma Fields(L: nat, m: nat)
    requires L < 256 && m < 0x80_0000
    ensures var c := L % 256 * 0x100_0000 + m;
            c / 0x100_0000 == L && c % 0x80_0000 == m && c / 0x80_0000 % 2 == 0
  {
  }

  /** The compact form rounds down, by less than one part in 2^15. */
  lemma TruncationIsClose(t: nat)
    requires Size(t) < 256
    ensures 0 <= Truncated(t) <= t && (t - Truncated(t)) * 0x8000 <= Truncated(t)
  {
    hide Bytes, ShiftUp, ShiftDown, Encoded, Decoded, Truncated;
    TruncatedIs(t);
    MantissaFits(t);
    if Size(t) > 3 {
      var k, m := Size(t) - 3, Mantissa(t);
      ShiftBound(t, k, m);
      ShiftBound(t, k, m + 1);
      ShiftSum(m, 1, k);
      ShiftScaled(1, k);
      ShiftMonotone(0x8000, m, k);
    }
  }

  /** It keeps the exponent, so that truncating twice changes nothing more. */
  lemma TruncationIsIdempotent(t: nat)
    requires Size(t) < 256
    ensures Truncated(t) >= 0 && Size(Truncated(t)) == Size(t)
    ensures Encoded(Truncated(t)) == Encoded(t) && Truncated(Truncated(t)) == Truncated(t)
  {
    hide Bytes, ShiftUp, ShiftDown, Decoded;
    TruncatedIs(t);
    MantissaFits(t);
    if Size(t) > 3 {
      var k, m := Size(t) - 3, Mantissa(t);
      ShiftMonotone(0x8000, m, k);
      ShiftMonotone(m + 1, 0x80_0000, k);
      ShiftSum(m, 1, k);
      ShiftPositive(k);
      SizeBounds(ShiftUp(m, k), k);
      ShiftDownUp(m, k);
    }
  }

  lemma ShiftPositive(k: nat)
    ensures ShiftUp(1, k) > 0
  {
  }

  lemma TruncationIsMonotone(s: nat, t: nat)
    requires s <= t && Size(t) < 256
    ensures Size(s) < 256 && Truncated(s) <= Truncated(t)
  {
    hide Bytes, ShiftUp, ShiftDown, Encoded, Decoded, Truncated;
    BytesMonotone(2 * s, 2 * t);
    TruncatedIs(s);
    TruncatedIs(t);
    TruncationIsClose(s);
    if Size(t) > 3 {
      var k := Size(t) - 3;
      if Size(s) == Size(t) {
        ShiftMonotone(s, t, k);
        ShiftMonotone(Mantissa(s), Mantissa(t), k);
      } else {
        MantissaFits(t);
        ShiftMonotone(0x8000, Mantissa(t), k);
        SmallerSize(s, k);
      }
    }
  }

  lemma SmallerSize(s: nat, k: nat)
    requires Size(s) < k + 3
    ensures s < ShiftUp(0x8000, k)
  {
    hide Bytes, ShiftUp, Pow256;
    BytesBounds(2 * s);
    PowMonotone(Size(s), k + 2);
    PowersShifted(k);
    ShiftScaled(0x8000, k);
  }

  lemma {:induction false} PowersMultiply(a: nat, b: nat)
    ensures Pow256(a + b) == Pow256(a) * Pow256(b)
  {
    if b > 0 {
      PowersMultiply(a, b - 1);
    }
  }

  lemma ShiftTwice(w: nat, a: nat, b: nat)
    ensures ShiftUp(w, a + b) == ShiftUp(ShiftUp(w, a), b)
  {
    hide Pow256;
    PowersMultiply(a, b);
  }

  lemma ShiftSmaller(w: nat, d: nat)
    ensures ShiftDown(w, d) <= w && ShiftUp(w, 0) == w
  {
    hide Pow256;
    SmallPowers();
    var q := ShiftDown(w, d);
    QuotientBound(w, Pow256(d), q);
    assert q * (Pow256(d) - 1) >= 0;
  }

  /** A mantissa shifted by k bytes needs at most k + 3. */
  lemma WordFits(w: nat, k: nat)
    requires w < 0x80_0000
    ensures Size(ShiftUp(w, k)) <= k + 3
  {
    hide Bytes, ShiftUp, ShiftDown, Pow256;
    var t := ShiftUp(w, k);
    if Size(t) > k + 3 {
      var j: nat := Size(t) - 3;
      SizeBounds(t, j);
      ShiftTwice(0x8000, j - k - 1, k + 1);
      ShiftAtLeast(0x8000, j - k - 1);
      ShiftMonotone(0x8000, ShiftUp(0x8000, j - k - 1), k + 1);
      ShiftMore(0x8000, k);
      ShiftMonotone(w + 1, 0x80_0000, k);
      ShiftSum(w, 1, k);
      ShiftPositive(k);
    }
  }

  lemma ShiftAtLeast(w: nat, k: nat)
    ensures w <= ShiftUp(w, k)
  {
    hide Pow256;
    assert w * (Pow256(k) - 1) >= 0;
  }

  /** Nothing that a compact form stands for is lost when it is compressed again. */
  lemma DecodedIsExact(nBits: UInt32)
    requires Decoded(nBits) >= 0
    ensures Size(Decoded(nBits)) < 256 && Truncated(Decoded(nBits)) == Decoded(nBits)
  {
    hide Bytes, ShiftUp, ShiftDown, Encoded, Truncated, Size;
    var nSize, w := nBits / 0x100_0000, nBits % 0x80_0000;
    if nSize <= 3 {
      ShiftSmaller(w, 3 - nSize);
      ShiftedIsExact(ShiftDown(w, 3 - nSize), 0);
      ShiftSmaller(ShiftDown(w, 3 - nSize), 0);
    } else {
      ShiftedIsExact(w, nSize - 3);
    }
    ShiftSmaller(0, 0);
    ShiftedIsExact(0, 0);
  }

  lemma ShiftedIsExact(w: nat, k: nat)
    requires w < 0x80_0000 && k < 253
    ensures Size(ShiftUp(w, k)) < 256 && Truncated(ShiftUp(w, k)) == ShiftUp(w, k)
  {
    hide Bytes, ShiftUp, ShiftDown, Truncated;
    var t := ShiftUp(w, k);
    WordFits(w, k);
    TruncatedIs(t);
    if Size(t) > 3 {
      var j := Size(t) - 3;
      ShiftTwice(w, k - j, j);
      ShiftDownUp(ShiftUp(w, k - j), j);
    }
  }

  // ---------------------------------------------------------------- retargeting

  const TARGET_TIMESPAN := 14 * 24 * 60 * 60
  const TARGET_SPACING := 10 * 60
  const INTERVAL := TARGET_TIMESPAN / TARGET_SPACING

  /** The time an interval took, within a factor of four of what it should take. */
  function Clamped(nActualTimespan: int): (ts: nat)
    ensures TARGET_TIMESPAN / 4 <= ts <= TARGET_TIMESPAN * 4
  {
    if nActualTimespan < TARGET_TIMESPAN / 4 then TARGET_TIMESPAN / 4
    else if nActualTimespan > TARGET_TIMESPAN * 4 then TARGET_TIMESPAN * 4
    else nActualTimespan
  }

  /** BN_div rounds towards zero. */
  function Scaled(target: int, ts: nat): int {
    var x := target * ts;
    if x >= 0 then x / TARGET_TIMESPAN else 0 - (-x) / TARGET_TIMESPAN
  }

  function Retargeted(nBits: UInt32, nActualTimespan: int, limit: nat): UInt32 {
    Encoded(Min(Scaled(Decoded(nBits), Clamped(nActualTimespan)), limit))
  }

  lemma ScaledBounds(target: nat, ts: nat)
    requires TARGET_TIMESPAN / 4 <= ts <= TARGET_TIMESPAN * 4
    ensures target / 4 <= Scaled(target, ts) <= 4 * target
  {
    var x := target * ts;
    assert target * (ts - TARGET_TIMESPAN / 4) >= 0;
    assert target * (TARGET_TIMESPAN * 4 - ts) >= 0;
    QuotientBound(x, TARGET_TIMESPAN, target / 4);
    QuotientBound(x, TARGET_TIMESPAN, 4 * target + 1);
  }

  /** A new target is never above the limit nor above four times the old one, and never below a quarter of the old one or
      the limit, as the compact form rounds it. */
  lemma RetargetIsBounded(nBits: UInt32, nActualTimespan: int, limit: nat)
    requires Decoded(nBits) >= 0 && Size(limit) < 256
    ensures var was, now := Decoded(nBits), Decoded(Retargeted(nBits, nActualTimespan, limit));
            Truncated(Min(limit, was / 4)) <= now <= Min(limit, 4 * was)
  {
    hide Bytes, ShiftUp, ShiftDown, Encoded, Decoded, Scaled;
    var was := Decoded(nBits);
    var exact := Scaled(was, Clamped(nActualTimespan));
    ScaledBounds(was, Clamped(nActualTimespan));
    var bounded := Min(exact, limit);
    BytesMonotone(2 * bounded, 2 * limit);
    TruncationIsClose(bounded);
    TruncationIsMonotone(Min(limit, was / 4), bounded);
  }

  /** The rule itself, in whole numbers: the old target times the time taken, kept within a factor of four of the time it
      should take, over that time, rounded down, and capped. */
  lemma RetargetLaw(nBits: UInt32, nActualTimespan: int, limit: nat) returns (q: nat)
    requires Decoded(nBits) >= 0
    ensures var t := Decoded(nBits);
            var ts := if nActualTimespan < TARGET_TIMESPAN / 4 then TARGET_TIMESPAN / 4
                      else if nActualTimespan > 4 * TARGET_TIMESPAN then 4 * TARGET_TIMESPAN else nActualTimespan;
            && q * TARGET_TIMESPAN <= t * ts < (q + 1) * TARGET_TIMESPAN
            && Decoded(Retargeted(nBits, nActualTimespan, limit)) == Truncated(if q <= limit then q else limit)
  {
    hide Encoded, Decoded;
    var x := Decoded(nBits) * Clamped(nActualTimespan);
    q := x / TARGET_TIMESPAN;
    Divided(x, TARGET_TIMESPAN);
  }

  lemma ProductOrder(t: nat, a: nat, b: nat)
    requires a <= b
    ensures t * a <= t * b
  {
  }

  lemma QuotientOrder(x: nat, y: nat, d: nat, p: nat, q: nat)
    requires d > 0 && x <= y && p * d <= x && y < (q + 1) * d
    ensures p <= q
  {
    if p > q {
      ProductOrder(d, q + 1, p);
    }
  }

  /** The longer an interval took, the easier the next one. */
  lemma RetargetIsMonotone(nBits: UInt32, faster: int, slower: int, limit: nat)
    requires Decoded(nBits) >= 0 && Size(limit) < 256 && faster <= slower
    ensures Decoded(Retargeted(nBits, faster, limit)) <= Decoded(Retargeted(nBits, slower, limit))
  {
    hide Encoded, Decoded, Truncated, Retargeted, Bytes;
    var p := RetargetLaw(nBits, faster, limit);
    var q := RetargetLaw(nBits, slower, limit);
    var t, a, b := Decoded(nBits), Clamped(faster), Clamped(slower);
    ProductOrder(t, a, b);
    QuotientOrder(t * a, t * b, TARGET_TIMESPAN, p, q);
    BytesMonotone(2 * Min(q, limit), 2 * limit);
    TruncationIsMonotone(Min(p, limit), Min(q, limit));
  }

  /** An interval that took exactly as long as it should leaves the target as it is. */
  lemma RetargetKeeps(nBits: UInt32, limit: nat)
    requires 0 <= Decoded(nBits) <= limit
    ensures Decoded(Retargeted(nBits, TARGET_TIMESPAN, limit)) == Decoded(nBits)
  {
    hide Encoded, Decoded, Truncated, Retargeted;
    var q := RetargetLaw(nBits, TARGET_TIMESPAN, limit);
    DecodedIsExact(nBits);
  }

  datatype Header = Header(nTime: UInt32, nBits: UInt32)

  /** The last block that is first of an interval, is the first of all, or has an ordinary difficulty. */
  function LastOrdinary(chain: seq<Header>, easiest: UInt32): (k: nat)
    requires chain != []
    ensures k < |chain| && (k == 0 || k % INTERVAL == 0 || chain[k].nBits != easiest)
    ensures forall j :: k < j < |chain| ==> j % INTERVAL != 0 && chain[j].nBits == easiest
  {
    var k := |chain| - 1;
    if k == 0 || k % INTERVAL == 0 || chain[k].nBits != easiest then k else LastOrdinary(chain[..k], easiest)
  }

  /** What the block after a chain must declare as its difficulty. */
  function Required(chain: seq<Header>, nTime: UInt32, limit: nat, testNet: bool): UInt32 {
    var easiest := Encoded(limit);
    if chain == [] then easiest else
      var last := chain[|chain| - 1];
      if |chain| % INTERVAL != 0 then
        if !testNet then last.nBits
        else if nTime > last.nTime + TARGET_SPACING * 2 then easiest
        else chain[LastOrdinary(chain, easiest)].nBits
      else
        Retargeted(last.nBits, last.nTime - chain[|chain| - INTERVAL].nTime, limit)
  }

  /** The walk back over blocks of minimal difficulty, as the test net's rule has it. */
  method SkipEasiest(chain: seq<Header>, nProofOfWorkLimit: UInt32) returns (index: nat)
    requires chain != []
    ensures index == LastOrdinary(chain, nProofOfWorkLimit)
  {
    index := |chain| - 1;
    assert chain[..index + 1] == chain;
    while index > 0 && index % INTERVAL != 0 && chain[index].nBits == nProofOfWorkLimit
      invariant 0 <= index < |chain|
      invariant LastOrdinary(chain[..index + 1], nProofOfWorkLimit) == LastOrdinary(chain, nProofOfWorkLimit)
    {
      assert chain[..index + 1][..index] == chain[..index];
      index := index - 1;
    }
  }

  method Retarget(nBits: UInt32, nActualTimespan: int, limit: nat) returns (r: UInt32)
    ensures r == Retargeted(nBits, nActualTimespan, limit)
  {
    hide Encoded, Decoded, Scaled;
    var ts := nActualTimespan;
    if ts < TARGET_TIMESPAN / 4 {
      ts := TARGET_TIMESPAN / 4;
    }
    if ts > TARGET_TIMESPAN * 4 {
      ts := TARGET_TIMESPAN * 4;
    }
    var bnNew := SetCompact(nBits);
    bnNew := Scaled(bnNew, ts);
    if bnNew > limit {
      bnNew := limit;
    }
    r := GetCompact(bnNew);
  }

  /** The first block of a full interval is always there to be found. */
  method WalkBack(nHeight: nat) returns (first: nat)
    requires (nHeight + 1) % INTERVAL == 0
    ensures first == nHeight + 1 - INTERVAL
  {
    assert nHeight + 1 >= INTERVAL;
    var at: int, i := nHeight, 0;
    while at >= 0 && i < INTERVAL - 1
      invariant 0 <= i <= INTERVAL - 1 && at == nHeight - i
    {
      at := at - 1;
      i := i + 1;
    }
    assert at >= 0;
    first := at;
  }

  /** The chain is indexed by height, its last entry being pindexLast. */
  method GetNextWorkRequired(chain: seq<Header>, nTime: UInt32, limit: nat, testNet: bool) returns (nBits: UInt32)
    ensures nBits == Required(chain, nTime, limit, testNet)
  {
    hide Encoded, Retargeted, LastOrdinary;
    var nProofOfWorkLimit := GetCompact(limit);
    if chain == [] {
      return nProofOfWorkLimit;
    }
    var nHeight := |chain| - 1;
    if (nHeight + 1) % INTERVAL != 0 {
      if testNet {
        if nTime > chain[nHeight].nTime + TARGET_SPACING * 2 {
          return nProofOfWorkLimit;
        }
        var index := SkipEasiest(chain, nProofOfWorkLimit);
        return chain[index].nBits;
      }
      return chain[nHeight].nBits;
    }
    var first := WalkBack(nHeight);
    nBits := Retarget(chain[nHeight].nBits, chain[nHeight].nTime - chain[first].nTime, limit);
  }

  /** Every block declares the difficulty it must. */
  ghost predicate FollowsRule(chain: seq<Header>, limit: nat, testNet: bool) {
    forall k :: 0 <= k < |chain| ==> chain[k].nBits == Required(chain[..k], chain[k].nTime, limit, testNet)
  }

  /** On any chain that follows the rule, of any length and with any timestamps, no target is negative or above the limit;
      and on the main net no target is more than four times its predecessor's or, but for rounding, less than a quarter. */
  lemma {:induction false} TargetsStayInRange(chain: seq<Header>, limit: nat, testNet: bool, k: nat)
    requires FollowsRule(chain, limit, testNet) && Size(limit) < 256 && k < |chain|
    ensures 0 <= Decoded(chain[k].nBits) <= limit
    ensures k > 0 && !testNet ==>
              var was, now := Decoded(chain[k - 1].nBits), Decoded(chain[k].nBits);
              was >= 0 && Truncated(Min(limit, was / 4)) <= now <= 4 * was
  {
    hide Encoded, Decoded, Retargeted, Required, Truncated, Size;
    LimitInRange(limit);
    if k == 0 {
      RequiredCases(chain[..0], chain[0].nTime, limit, testNet);
    } else {
      var before := chain[..k];
      TargetsStayInRange(chain, limit, testNet, k - 1);
      RequiredCases(before, chain[k].nTime, limit, testNet);
      Unchanged(Decoded(chain[k - 1].nBits), limit);
      if k % INTERVAL == 0 {
        RetargetIsBounded(chain[k - 1].nBits, chain[k - 1].nTime - before[k - INTERVAL].nTime, limit);
      } else if testNet {
        TargetsStayInRange(chain, limit, testNet, LastOrdinary(before, Encoded(limit)));
      }
    }
  }

  /** On a chain that follows the rule, every 2016th block is retargeted from the time between the first and the last block
      of the interval before it. */
  lemma ChainRetargets(chain: seq<Header>, limit: nat, testNet: bool, k: nat) returns (q: nat)
    requires FollowsRule(chain, limit, testNet) && Size(limit) < 256 && 0 < k < |chain| && k % 2016 == 0
    ensures k >= 2016 && Decoded(chain[k - 1].nBits) >= 0
    ensures var t, span := Decoded(chain[k - 1].nBits), chain[k - 1].nTime - chain[k - 2016].nTime;
            var ts := if span < TARGET_TIMESPAN / 4 then TARGET_TIMESPAN / 4
                      else if span > 4 * TARGET_TIMESPAN then 4 * TARGET_TIMESPAN else span;
            && q * TARGET_TIMESPAN <= t * ts < (q + 1) * TARGET_TIMESPAN
            && Decoded(chain[k].nBits) == Truncated(if q <= limit then q else limit)
  {
    hide Encoded, Decoded, Retargeted, Required, Truncated, Size;
    TargetsStayInRange(chain, limit, testNet, k - 1);
    RequiredCases(chain[..k], chain[k].nTime, limit, testNet);
    q := RetargetLaw(chain[k - 1].nBits, chain[k - 1].nTime - chain[k - 2016].nTime, limit);
  }

  /** Between retargets the main net's difficulty stays. */
  lemma {:induction false} ChainKeepsDifficulty(chain: seq<Header>, limit: nat, k: nat)
    requires FollowsRule(chain, limit, false) && k < |chain|
    ensures chain[k].nBits == chain[k - k % 2016].nBits
  {
    hide Encoded, Retargeted, LastOrdinary, Required;
    if k % 2016 != 0 {
      SameInterval(k);
      ChainKeepsDifficulty(chain, limit, k - 1);
      RequiredCases(chain[..k], chain[k].nTime, limit, false);
    }
  }

  lemma SameInterval(k: nat)
    requires k % 2016 != 0
    ensures k - k % 2016 == k - 1 - (k - 1) % 2016
  {
  }

  /** On the test net, a block more than twenty minutes after the last may have the least difficulty, and any other has that
      of the last block which did not come by it in this way. */
  lemma TestNetDifficulty(chain: seq<Header>, limit: nat, k: nat)
    requires FollowsRule(chain, limit, true) && k < |chain| && k % 2016 != 0
    ensures var easiest := Encoded(limit);
            if chain[k].nTime > chain[k - 1].nTime + 1200 then chain[k].nBits == easiest
            else exists j :: 0 <= j < k && chain[k].nBits == chain[j].nBits
                   && (j == 0 || j % 2016 == 0 || chain[j].nBits != easiest)
                   && forall i :: j < i < k ==> i % 2016 != 0 && chain[i].nBits == easiest
  {
    hide Encoded, Retargeted, LastOrdinary, Required;
    RequiredCases(chain[..k], chain[k].nTime, limit, true);
    LastOrdinaryMeans(chain, k, Encoded(limit));
  }

  lemma LastOrdinaryMeans(chain: seq<Header>, k: nat, easiest: UInt32)
    requires 0 < k < |chain|
    ensures var j := LastOrdinary(chain[..k], easiest);
            && j < k && chain[..k][j] == chain[j] && (j == 0 || j % 2016 == 0 || chain[j].nBits != easiest)
            && forall i :: j < i < k ==> i % 2016 != 0 && chain[i].nBits == easiest
  {
    hide LastOrdinary;
    var before := chain[..k];
    assert forall i :: 0 <= i < k ==> before[i] == chain[i];
  }

  lemma LimitInRange(limit: nat)
    requires Size(limit) < 256
    ensures 0 <= Decoded(Encoded(limit)) <= limit
  {
    hide Encoded, Decoded, Size;
    TruncationIsClose(limit);
  }

  lemma Unchanged(was: nat, limit: nat)
    requires Size(limit) < 256
    ensures 0 <= Truncated(Min(limit, was / 4)) <= was
  {
    hide Truncated, Bytes;
    BytesMonotone(2 * Min(limit, was / 4), 2 * limit);
    TruncationIsClose(Min(limit, was / 4));
  }

  /** The sources of a required difficulty. */
  lemma RequiredCases(chain: seq<Header>, nTime: UInt32, limit: nat, testNet: bool)
    ensures var r := Required(chain, nTime, limit, testNet);
            if chain == [] then r == Encoded(limit)
            else if |chain| % INTERVAL == 0 then
              |chain| >= INTERVAL
              && r == Retargeted(chain[|chain| - 1].nBits, chain[|chain| - 1].nTime - chain[|chain| - INTERVAL].nTime, limit)
            else if testNet then
              r == if nTime > chain[|chain| - 1].nTime + TARGET_SPACING * 2 then Encoded(limit)
                   else chain[LastOrdinary(chain, Encoded(limit))].nBits
            else r == chain[|chain| - 1].nBits
  {
    hide Encoded, Retargeted, LastOrdinary;
  }

  // ---------------------------------------------------------------- work

  /** GetBlockWork: the expected number of hashes behind a block. */
  function BlockWork(nBits: UInt32): nat {
    var target := Decoded(nBits);
    if target <= 0 then 0 else
      Divided(Pow256(32), target + 1);
      Pow256(32) / (target + 1)
  }

  /** It is 2^256 over one more than the target, rounded down. */
  lemma WorkIsQuotient(nBits: UInt32)
    requires Decoded(nBits) > 0
    ensures var w, t := BlockWork(nBits), Decoded(nBits);
            w * (t + 1) <= Pow256(32) < (w + 1) * (t + 1)
  {
    hide Decoded, Pow256;
    Divided(Pow256(32), Decoded(nBits) + 1);
    var w, d := BlockWork(nBits), Decoded(nBits) + 1;
    assert (w + 1) * d == w * d + d;
  }

  /** A block adds work exactly when its target is positive and below 2^256, and a lower target never adds less. */
  lemma WorkOrdersTargets(a: UInt32, b: UInt32)
    ensures BlockWork(a) > 0 <==> 0 < Decoded(a) < Pow256(32)
    ensures 0 < Decoded(a) <= Decoded(b) ==> BlockWork(a) >= BlockWork(b)
  {
    hide Decoded, Pow256;
    var p := Pow256(32);
    if Decoded(a) > 0 {
      var d := Decoded(a) + 1;
      QuotientBound(p, d, 1);
      if Decoded(a) <= Decoded(b) {
        var q := BlockWork(b);
        QuotientBound(p, Decoded(b) + 1, q);
        assert q * (Decoded(b) + 1 - d) >= 0;
        QuotientBound(p, d, q);
      }
    }
  }
}
