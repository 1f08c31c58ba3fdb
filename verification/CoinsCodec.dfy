/** The database form of CCoins and CTxInUndo: variable-length integers, compressed amounts, and a bit mask that says
    which outputs are left. Streams are token by token: a byte, or a script (whose own codec is not modelled). */
module CoinsCodec {
  import opened Coins
  import opened Common
  import Utxo

  type Byte = b: nat | b < 256

  datatype Token = Raw(b: Byte) | Text(script: Script)

  type Stream = seq<Token>

  /** What reading yields: a value and the unread rest, or the exception at the end of the stream. */
  datatype Read<+T> = Fail | Got(value: T, rest: Stream)

  // ---------------------------------------------------------------- VARINT

  /** Base 128, most significant digit first, with one subtracted from every digit but the last; `more` marks digits that
      others follow. */
  function Digits(n: nat, more: bool): (s: Stream)
    ensures s != []
  {
    (if n <= 0x7F then [] else Digits(n / 128 - 1, true)) + [LastDigit(n, more)]
  }

  function LastDigit(n: nat, more: bool): (t: Token)
    ensures t.Raw? && t.b % 128 == n % 128 && (t.b >= 128 <==> more)
  {
    Raw(n % 128 + if more then 128 else 0)
  }

  /** What is left of a number: of a negative one, the low seven bits. */
  function Kept(n: int): (k: nat)
    ensures k == n <==> n >= 0
  {
    if n < 0 then n % 128 else n
  }

  function VarInt(n: int): Stream {
    Digits(Kept(n), false)
  }

  function ReadDigits(s: Stream, n: nat): (r: Read<nat>)
    ensures r.Got? ==> |r.rest| < |s|
  {
    if s == [] || !s[0].Raw? then Fail
    else
      var m := n * 128 + s[0].b % 128;
      if s[0].b >= 128 then ReadDigits(s[1..], m + 1) else Got(m, s[1..])
  }

  lemma DigitsStep(n: nat, more: bool)
    ensures Digits(n, more) == (if n <= 0x7F then [] else Digits(n / 128 - 1, true)) + [LastDigit(n, more)]
  {
  }

  lemma {:induction false} DigitsRead(n: nat, more: bool, rest: Stream)
    ensures ReadDigits(Digits(n, more) + rest, 0) == if more then ReadDigits(rest, n + 1) else Got(n, rest)
  {
    hide ReadDigits, LastDigit, Digits;
    var last, q := LastDigit(n, more), n / 128;
    DigitsStep(n, more);
    ReadStep(last, rest, q);
    assert q * 128 + last.b % 128 == n;
    if n > 0x7F {
      var front := Digits(q - 1, true);
      DigitsRead(q - 1, true, [last] + rest);
      assert front + ([last] + rest) == (front + [last]) + rest;
    } else {
      assert [] + [last] == [last];
    }
  }

  lemma ReadStep(t: Token, rest: Stream, n: nat)
    requires t.Raw?
    ensures var m := n * 128 + t.b % 128;
            ReadDigits([t] + rest, n) == if t.b >= 128 then ReadDigits(rest, m + 1) else Got(m, rest)
  {
    assert ([t] + rest)[1..] == rest;
  }

  /** The digits that leave a reader with n so far. */
  function Before(n: nat): Stream {
    if n == 0 then [] else Digits(n - 1, true)
  }

  lemma BeforeStep(n: nat, t: Token)
    requires t.Raw?
    ensures Before(n) + [t] == Digits(n * 128 + t.b % 128, t.b >= 128)
  {
    hide Digits;
    var m := n * 128 + t.b % 128;
    Quotient(m, 128, n, t.b % 128);
    DigitsStep(m, t.b >= 128);
    assert LastDigit(m, t.b >= 128) == t;
    assert [] + [t] == [t];
  }

  lemma {:induction false} ReadIsDigits(s: Stream, n: nat)
    ensures var r := ReadDigits(s, n); r.Got? ==> Before(n) + s == VarInt(r.value) + r.rest
    decreases |s|
  {
    if s != [] && s[0].Raw? {
      hide Digits, LastDigit;
      var m := n * 128 + s[0].b % 128;
      BeforeStep(n, s[0]);
      assert s == [s[0]] + s[1..];
      assert Before(n) + s == (Before(n) + [s[0]]) + s[1..];
      if s[0].b >= 128 {
        ReadIsDigits(s[1..], m + 1);
      }
    }
  }

  /** Every number has exactly one encoding, and no sequence of bytes is wasted on another: a stream reads as n, leaving
      `rest`, just when it is the encoding of n followed by `rest`. */
  lemma VarIntIsBijective(s: Stream, n: nat, rest: Stream)
    ensures ReadDigits(s, 0) == Got(n, rest) <==> s == VarInt(n) + rest
  {
    DigitsRead(n, false, rest);
    ReadIsDigits(s, 0);
  }

  /** The bytes collected so far, last one first. */
  function Backwards(tmp: seq<Byte>): (s: Stream)
    ensures |s| == |tmp|
  {
    seq(|tmp|, i requires 0 <= i < |tmp| => Raw(tmp[|tmp| - 1 - i]))
  }

  lemma Append(n: nat, tmp: seq<Byte>)
    ensures var more := tmp + [n % 128 + if tmp == [] then 0 else 128];
            Digits(n, tmp != []) + Backwards(tmp) == (if n <= 0x7F then [] else Digits(n / 128 - 1, true)) + Backwards(more)
  {
    hide Digits;
    DigitsStep(n, tmp != []);
    var last := LastDigit(n, tmp != []);
    assert Backwards(tmp + [last.b]) == [last] + Backwards(tmp);
    var front := if n <= 0x7F then [] else Digits(n / 128 - 1, true);
    assert (front + [last]) + Backwards(tmp) == front + ([last] + Backwards(tmp));
  }

  method WriteVarInt(n0: int) returns (s: Stream)
    ensures s == VarInt(n0)
  {
    var tmp: seq<Byte> := [];
    var n := n0;
    while n > 0x7F
      invariant VarInt(n0) == Digits(Kept(n), tmp != []) + Backwards(tmp) && (n < 0 ==> tmp == [])
    {
      Append(n, tmp);
      tmp := tmp + [n % 128 + if tmp == [] then 0 else 128];
      n := n / 128 - 1;
    }
    Append(Kept(n), tmp);
    tmp := tmp + [n % 128 + if tmp == [] then 0 else 128];
    s := [];
    var len := |tmp|;
    ghost var all := Backwards(tmp);
    while len > 0
      invariant 0 <= len <= |tmp| == |all| && s == all[..|tmp| - len]
    {
      assert all[|tmp| - len] == Raw(tmp[len - 1]);
      len := len - 1;
      s := s + [Raw(tmp[len])];
    }
  }

  method ReadVarInt(s: Stream) returns (r: Read<nat>)
    ensures r == ReadDigits(s, 0)
  {
    var n: nat, at := 0, s;
    while at != []
      invariant ReadDigits(s, 0) == ReadDigits(at, n)
      decreases |at|
    {
      if !at[0].Raw? {
        return Fail;
      }
      var chData := at[0].b;
      at := at[1..];
      n := n * 128 + chData % 128;
      if chData >= 128 {
        n := n + 1;
      } else {
        return Got(n, at);
      }
    }
    r := Fail;
  }

  // ---------------------------------------------------------------- amounts

  function Pow10(e: nat): (p: nat)
    ensures p > 0
  {
    if e == 0 then 1 else 10 * Pow10(e - 1)
  }

  /** Trailing zeros off, as long as the exponent stays below 10. */
  function Strip(n: nat, e: nat): (r: (nat, nat))
    requires n > 0 && e <= 9
    ensures e <= r.1 <= 9 && 0 < r.0 <= n && r.0 * Pow10(r.1) == n * Pow10(e)
    ensures r.1 < 9 ==> r.0 % 10 != 0
    decreases 9 - e
  {
    if n % 10 == 0 && e < 9 then
      assert n * Pow10(e) == n / 10 * Pow10(e + 1);
      Strip(n / 10, e + 1)
    else (n, e)
  }

  function Packed(n: nat, e: nat): nat
    requires n > 0 && (e < 9 ==> n % 10 != 0)
  {
    if e < 9 then 1 + (n / 10 * 9 + n % 10 - 1) * 10 + e else 1 + (n - 1) * 10 + 9
  }

  function Compressed(n: nat): nat {
    if n == 0 then 0 else var (m, e) := Strip(n, 0); Packed(m, e)
  }

  /** Mantissa and exponent of a compressed amount. */
  function Unpack(x: nat): (r: (nat, nat))
    requires x > 0
    ensures r.1 <= 9 && r.0 > 0 && (r.1 < 9 ==> r.0 % 10 != 0)
  {
    var e, y := (x - 1) % 10, (x - 1) / 10;
    (if e < 9 then y / 9 * 10 + y % 9 + 1 else y + 1, e)
  }

  function Scaled(n: nat, e: nat): nat {
    n * Pow10(e)
  }

  lemma ScaledStep(n: nat, e: nat)
    requires e > 0
    ensures Scaled(n, e) == Scaled(n * 10, e - 1) && Scaled(n, 0) == n
  {
  }

  function Decompressed(x: nat): nat {
    if x == 0 then 0 else var (m, e) := Unpack(x); Scaled(m, e)
  }

  lemma PackedUnpack(x: nat)
    requires x > 0
    ensures var (m, e) := Unpack(x); Packed(m, e) == x
  {
  }

  lemma UnpackPacked(n: nat, e: nat)
    requires n > 0 && e <= 9 && (e < 9 ==> n % 10 != 0)
    ensures Packed(n, e) > 0 && Unpack(Packed(n, e)) == (n, e)
  {
    var x := Packed(n, e);
    if e < 9 {
      var q, d := n / 10, n % 10;
      Digits10(q * 9 + d - 1, e);
      Quotient(q * 9 + d - 1, 9, q, d - 1);
    } else {
      Digits10(n - 1, 9);
    }
  }

  lemma Digits10(y: nat, e: nat)
    requires e <= 9
    ensures (y * 10 + e) / 10 == y && (y * 10 + e) % 10 == e
  {
  }

  lemma {:induction false} StripScaled(n: nat, e: nat, k: nat)
    requires n > 0 && e + k <= 9 && (e + k < 9 ==> n % 10 != 0)
    ensures n * Pow10(e) > 0 && Strip(n * Pow10(e), k) == (n, e + k)
    decreases e
  {
    if e > 0 {
      StripScaled(n, e - 1, k + 1);
      var p := n * Pow10(e - 1);
      TenTimes(n, Pow10(e - 1));
      StripStep(p, k);
    }
  }

  lemma TenTimes(n: nat, p: nat)
    ensures n * (10 * p) == 10 * (n * p)
  {
  }

  lemma StripStep(p: nat, k: nat)
    requires p > 0 && k < 9
    ensures Strip(10 * p, k) == Strip(p, k + 1)
  {
    hide Pow10;
    Digits10(p, 0);
  }

  /** Compression and decompression are inverse to each other on all amounts, so no code is wasted either. */
  lemma AmountsInverse(n: nat)
    ensures Decompressed(Compressed(n)) == n && Compressed(Decompressed(n)) == n
  {
    if n > 0 {
      var (m, e) := Strip(n, 0);
      UnpackPacked(m, e);
      var (m', e') := Unpack(n);
      StripScaled(m', e', 0);
      PackedUnpack(n);
    }
  }

  /** A compressed amount of money fits 64 bits. */
  lemma AmountsFit(n: nat)
    requires n <= Utxo.MAX_MONEY
    ensures Compressed(n) <= 9 * n + 9 < 0x1_0000_0000_0000_0000
  {
  }

  method CompressAmount(nAmount: nat) returns (x: nat)
    ensures x == Compressed(nAmount)
  {
    if nAmount == 0 {
      return 0;
    }
    var n, e := nAmount, 0;
    while n % 10 == 0 && e < 9
      invariant 0 < n && e <= 9 && Strip(n, e) == Strip(nAmount, 0)
      decreases 9 - e
    {
      n := n / 10;
      e := e + 1;
    }
    if e < 9 {
      var d := n % 10;
      assert 1 <= d <= 9;
      n := n / 10;
      return 1 + (n * 9 + d - 1) * 10 + e;
    } else {
      return 1 + (n - 1) * 10 + 9;
    }
  }

  method DecompressAmount(nAmount: nat) returns (n: nat)
    ensures n == Decompressed(nAmount)
  {
    hide Scaled, Pow10;
    if nAmount == 0 {
      return 0;
    }
    var x := nAmount - 1;
    var e := x % 10;
    x := x / 10;
    n := 0;
    if e < 9 {
      var d := x % 9 + 1;
      x := x / 9;
      n := x * 10 + d;
    } else {
      n := x + 1;
    }
    assert (n, e) == Unpack(nAmount);
    while e > 0
      invariant 0 <= e <= 9 && Scaled(n, e) == Decompressed(nAmount)
    {
      ScaledStep(n, e);
      n := n * 10;
      e := e - 1;
    }
    ScaledStep(n, 1);
  }

  // ---------------------------------------------------------------- the mask

  predicate Left(vout: seq<TxOut>, i: nat) {
    i < |vout| && !vout[i].IsNull()
  }

  /** Bit p of mask byte b stands for output 2 + 8 * b + p. */
  predicate LeftAt(vout: seq<TxOut>, b: nat, p: nat) {
    Left(vout, 2 + 8 * b + p)
  }

  /** Bits i .. 7 of mask byte b, bit i first. */
  function MaskFrom(vout: seq<TxOut>, b: nat, i: nat): (m: nat)
    requires i <= 8
    ensures m < Pow2(8 - i)
    ensures m == 0 <==> forall p :: i <= p < 8 ==> !LeftAt(vout, b, p)
    decreases 8 - i
  {
    if i == 8 then 0 else (if LeftAt(vout, b, i) then 1 else 0) + 2 * MaskFrom(vout, b, i + 1)
  }

  function Mask(vout: seq<TxOut>, b: nat): Byte {
    assert Pow2(8) == 256;
    MaskFrom(vout, b, 0)
  }

  predicate Bit(m: nat, p: nat) {
    m / Pow2(p) % 2 == 1
  }

  lemma {:induction false} MaskBit(vout: seq<TxOut>, b: nat, i: nat, p: nat)
    requires i + p < 8
    ensures Bit(MaskFrom(vout, b, i), p) <==> LeftAt(vout, b, i + p)
    decreases p
  {
    hide LeftAt;
    if p > 0 {
      MaskBit(vout, b, i + 1, p - 1);
      Halve(MaskFrom(vout, b, i), p - 1);
      assert MaskFrom(vout, b, i) / 2 == MaskFrom(vout, b, i + 1);
    }
  }

  lemma Halve(m: nat, p: nat)
    ensures m / Pow2(p + 1) == m / 2 / Pow2(p)
  {
    var d := Pow2(p);
    var q, r := m / 2 / d, m / 2 % d;
    assert m == 2 * d * q + (2 * r + m % 2);
    Quotient(m, 2 * d, q, 2 * r + m % 2);
  }

  /** How many mask bytes the outputs span. */
  function Span(vout: seq<TxOut>): nat {
    if |vout| <= 2 then 0 else (|vout| + 5) / 8
  }

  function Nonzero(vout: seq<TxOut>, b: nat, end: nat): (k: nat)
    requires b <= end
    decreases end - b
  {
    if b == end then 0 else (if Mask(vout, b) != 0 then 1 else 0) + Nonzero(vout, b + 1, end)
  }

  lemma {:induction false} NonzeroSnoc(vout: seq<TxOut>, b: nat, end: nat)
    requires b <= end
    ensures Nonzero(vout, b, end + 1) == Nonzero(vout, b, end) + (if Mask(vout, end) != 0 then 1 else 0)
    decreases end - b
  {
    if b < end {
      NonzeroSnoc(vout, b + 1, end);
    }
  }

  /** The mask ends with its last byte that is not zero. */
  predicate MaskEnds(vout: seq<TxOut>, nBytes: nat) {
    nBytes <= Span(vout) && (nBytes > 0 ==> Mask(vout, nBytes - 1) != 0) && forall b :: nBytes <= b < Span(vout) ==> Mask(vout, b) == 0
  }

  method NothingLeft(vout: seq<TxOut>, b: nat) returns (fZero: bool)
    ensures fZero <==> Mask(vout, b) == 0
  {
    fZero := true;
    var i := 0;
    while i < 8 && 2 + b * 8 + i < |vout|
      invariant i <= 8
      invariant fZero ==> forall p :: 0 <= p < i ==> !LeftAt(vout, b, p)
      invariant !fZero ==> exists p :: 0 <= p < i && LeftAt(vout, b, p)
    {
      assert LeftAt(vout, b, i) <==> !vout[2 + b * 8 + i].IsNull();
      if !vout[2 + b * 8 + i].IsNull() {
        fZero := false;
      }
      i := i + 1;
    }
    assert forall p :: i <= p < 8 ==> !LeftAt(vout, b, p);
  }

  function MaskLength(vout: seq<TxOut>): (n: nat)
    ensures MaskEnds(vout, n)
  {
    UpTo(vout, Span(vout))
  }

  /** One more than the last of the first b mask bytes that is not zero. */
  function UpTo(vout: seq<TxOut>, b: nat): (n: nat)
    ensures n <= b && (n > 0 ==> Mask(vout, n - 1) != 0) && forall c :: n <= c < b ==> Mask(vout, c) == 0
  {
    hide Mask;
    if b == 0 || Mask(vout, b - 1) != 0 then b else UpTo(vout, b - 1)
  }

  method CalcMaskSize(vout: seq<TxOut>) returns (nBytes: nat, nNonzeroBytes: nat)
    ensures nBytes == MaskLength(vout) && nNonzeroBytes == Nonzero(vout, 0, nBytes)
  {
    hide Mask;
    nBytes, nNonzeroBytes := 0, 0;
    var b := 0;
    while 2 + b * 8 < |vout|
      invariant b <= Span(vout) && nBytes <= b
      invariant nNonzeroBytes == Nonzero(vout, 0, nBytes) == Nonzero(vout, 0, b)
      invariant nBytes > 0 ==> Mask(vout, nBytes - 1) != 0
      invariant forall c :: nBytes <= c < b ==> Mask(vout, c) == 0
    {
      var fZero := NothingLeft(vout, b);
      NonzeroSnoc(vout, 0, b);
      if !fZero {
        nBytes := b + 1;
        nNonzeroBytes := nNonzeroBytes + 1;
      }
      b := b + 1;
    }
  }

  /** A trimmed coin has an output left in every last byte it spans, so its mask has no tail to lose. */
  lemma TrimmedMask(vout: seq<TxOut>)
    requires |vout| > 0 ==> !vout[|vout| - 1].IsNull()
    ensures MaskLength(vout) == Span(vout)
  {
    if |vout| > 2 {
      var b := Span(vout) - 1;
      assert LeftAt(vout, b, |vout| - 3 - 8 * b);
      assert Mask(vout, b) != 0;
    }
  }

  // ---------------------------------------------------------------- writing a coin

  function OutBytes(o: TxOut): (s: Stream)
    requires o.nValue >= 0
  {
    VarInt(Compressed(o.nValue)) + [Text(o.scriptPubKey)]
  }

  /** Mask bytes b .. end - 1. */
  function MaskBytes(vout: seq<TxOut>, b: nat, end: nat): (s: Stream)
    requires b <= end
    decreases end - b
  {
    if b == end then [] else [Raw(Mask(vout, b))] + MaskBytes(vout, b + 1, end)
  }

  predicate ValuesFit(vout: seq<TxOut>) {
    forall i :: 0 <= i < |vout| ==> vout[i].IsNull() || vout[i].nValue >= 0
  }

  /** The outputs that are left, from the i-th on. */
  function Outs(vout: seq<TxOut>, i: nat): (s: Stream)
    requires i <= |vout| && ValuesFit(vout)
    decreases |vout| - i
  {
    if i == |vout| then [] else (if vout[i].IsNull() then [] else OutBytes(vout[i])) + Outs(vout, i + 1)
  }

  /** The header code: coinbase flag, the first two outputs, and how many mask bytes are not zero -- less one when neither
      of the first two is left, since then there must be one. */
  function CodeOf(c: Coin, nonzero: nat): nat
    requires Left(c.vout, 0) || Left(c.vout, 1) || nonzero > 0
  {
    8 * (nonzero - if Left(c.vout, 0) || Left(c.vout, 1) then 0 else 1)
    + (if c.fCoinBase then 1 else 0) + (if Left(c.vout, 0) then 2 else 0) + if Left(c.vout, 1) then 4 else 0
  }

  /** What the original demands of a coin it writes, and what every stored coin has: something left, trimmed, with
      canonical nulls and values that are amounts. */
  predicate Storable(c: Coin) {
    !c.IsPruned() && c.Canonical() && ValuesFit(c.vout)
  }

  lemma SomethingLeft(vout: seq<TxOut>)
    requires exists i :: 0 <= i < |vout| && !vout[i].IsNull()
    ensures Left(vout, 0) || Left(vout, 1) || Nonzero(vout, 0, MaskLength(vout)) > 0
  {
    hide MaskLength;
    var nBytes := MaskLength(vout);
    var i :| 0 <= i < |vout| && !vout[i].IsNull();
    if i >= 2 {
      var b, p := (i - 2) / 8, (i - 2) % 8;
      assert LeftAt(vout, b, p);
      assert Mask(vout, b) != 0 && b < nBytes;
      NonzeroSnoc(vout, 0, nBytes - 1);
    }
  }

  /** The stored form of a coin. */
  function CoinBytes(c: Coin): (s: Stream)
    requires !c.IsPruned() && ValuesFit(c.vout)
  {
    var nBytes := MaskLength(c.vout);
    SomethingLeft(c.vout);
    VarInt(c.nVersion) + VarInt(CodeOf(c, Nonzero(c.vout, 0, nBytes))) + MaskBytes(c.vout, 0, nBytes) + Outs(c.vout, 0) + VarInt(c.nHeight)
  }

  method SerializeOut(o: TxOut) returns (s: Stream)
    requires o.nValue >= 0
    ensures s == OutBytes(o)
  {
    var nVal := CompressAmount(o.nValue);
    s := WriteVarInt(nVal);
    s := s + [Text(o.scriptPubKey)];
  }

  method MaskByte(vout: seq<TxOut>, b: nat) returns (chAvail: Byte)
    ensures chAvail == Mask(vout, b)
  {
    hide MaskFrom, Pow2, LeftAt;
    var sum: int, i := 0, 0;
    WholeMask(vout, b);
    while i < 8 && 2 + b * 8 + i < |vout|
      invariant i <= 8 && 0 <= sum && sum + Weighted(vout, b, i) == Mask(vout, b)
    {
      WeightedStep(vout, b, i);
      if !vout[2 + b * 8 + i].IsNull() {
        sum := sum + Pow2(i);
      }
      i := i + 1;
    }
    NothingBeyond(vout, b, i);
    chAvail := sum;
  }

  /** What bits i .. 7 contribute to a mask byte. */
  function Weighted(vout: seq<TxOut>, b: nat, i: nat): nat
    requires i <= 8
  {
    Pow2(i) * MaskFrom(vout, b, i)
  }

  lemma WholeMask(vout: seq<TxOut>, b: nat)
    ensures Weighted(vout, b, 0) == Mask(vout, b)
  {
  }

  lemma WeightedStep(vout: seq<TxOut>, b: nat, i: nat)
    requires i < 8
    ensures Weighted(vout, b, i) == Weighted(vout, b, i + 1) + if Left(vout, 2 + b * 8 + i) then Pow2(i) else 0
  {
    hide MaskFrom, Pow2;
    MaskUnfolds(vout, b, i);
    PowUnfolds(i);
    Distribute(Pow2(i), LeftAt(vout, b, i), MaskFrom(vout, b, i + 1));
  }

  lemma MaskUnfolds(vout: seq<TxOut>, b: nat, i: nat)
    requires i < 8
    ensures MaskFrom(vout, b, i) == (if LeftAt(vout, b, i) then 1 else 0) + 2 * MaskFrom(vout, b, i + 1)
  {
  }

  lemma PowUnfolds(i: nat)
    ensures Pow2(i + 1) == 2 * Pow2(i)
  {
  }

  lemma Distribute(p: nat, bit: bool, y: nat)
    ensures p * ((if bit then 1 else 0) + 2 * y) == (if bit then p else 0) + 2 * p * y
  {
  }

  lemma NothingBeyond(vout: seq<TxOut>, b: nat, i: nat)
    requires i <= 8 && (i < 8 ==> 2 + 8 * b + i >= |vout|)
    ensures Weighted(vout, b, i) == 0
  {
  }

  method Serialize(coins: CCoins) returns (s: Stream)
    requires !coins.Value().IsPruned() && ValuesFit(coins.vout)
    ensures s == CoinBytes(coins.Value())
  {
    hide MaskFrom, Mask, Digits, Compressed, OutBytes;
    var c := coins.Value();
    var vout := coins.vout;
    var nMaskSize, nMaskCode := CalcMaskSize(vout);
    SomethingLeft(vout);
    var fFirst := |vout| > 0 && !vout[0].IsNull();
    var fSecond := |vout| > 1 && !vout[1].IsNull();
    assert fFirst || fSecond || nMaskCode != 0;
    var nCode := 8 * (nMaskCode - (if fFirst || fSecond then 0 else 1)) + (if coins.fCoinBase then 1 else 0)
      + (if fFirst then 2 else 0) + if fSecond then 4 else 0;
    var version := WriteVarInt(coins.nVersion);
    var header := WriteVarInt(nCode);
    var mask := SerializeMask(vout, nMaskSize);
    var outs := SerializeOuts(vout);
    var height := WriteVarInt(coins.nHeight);
    s := version + header + mask + outs + height;
  }

  method SerializeMask(vout: seq<TxOut>, nMaskSize: nat) returns (s: Stream)
    ensures s == MaskBytes(vout, 0, nMaskSize)
  {
    hide Mask;
    s := [];
    var b := 0;
    while b < nMaskSize
      invariant b <= nMaskSize && s + MaskBytes(vout, b, nMaskSize) == MaskBytes(vout, 0, nMaskSize)
    {
      var chAvail := MaskByte(vout, b);
      assert s + MaskBytes(vout, b, nMaskSize) == (s + [Raw(chAvail)]) + MaskBytes(vout, b + 1, nMaskSize);
      s := s + [Raw(chAvail)];
      b := b + 1;
    }
  }

  method SerializeOuts(vout: seq<TxOut>) returns (s: Stream)
    requires ValuesFit(vout)
    ensures s == Outs(vout, 0)
  {
    hide OutBytes;
    s := [];
    var i := 0;
    while i < |vout|
      invariant i <= |vout| && s + Outs(vout, i) == Outs(vout, 0)
    {
      if !vout[i].IsNull() {
        var out := SerializeOut(vout[i]);
        assert s + (out + Outs(vout, i + 1)) == (s + out) + Outs(vout, i + 1);
        s := s + out;
      } else {
        assert s + ([] + Outs(vout, i + 1)) == s + Outs(vout, i + 1);
      }
      i := i + 1;
    }
  }

  // ---------------------------------------------------------------- reading a coin

  function Bits8(ch: Byte): (r: seq<bool>)
    ensures |r| == 8
  {
    seq(8, p requires 0 <= p < 8 => Bit(ch, p))
  }

  /** Mask bytes are read until so many of them were not zero. */
  function ReadMask(s: Stream, nMaskCode: nat): (r: Read<seq<bool>>)
    ensures r.Got? ==> |r.rest| <= |s| && |r.value| == 8 * (|s| - |r.rest|)
  {
    if nMaskCode == 0 then Got([], s)
    else if s == [] || !s[0].Raw? then Fail
    else Prepended(Bits8(s[0].b), ReadMask(s[1..], if s[0].b != 0 then nMaskCode - 1 else nMaskCode))
  }

  /** Elements read earlier, put before those of a later read. */
  function Prepended<T>(first: seq<T>, r: Read<seq<T>>): Read<seq<T>> {
    match r case Fail => Fail case Got(more, rest) => Got(first + more, rest)
  }

  lemma PrependTwice<T>(a: seq<T>, b: seq<T>, r: Read<seq<T>>)
    ensures Prepended(a, Prepended(b, r)) == Prepended(a + b, r) && Prepended([], r) == r
  {
    if r.Got? {
      assert a + (b + r.value) == a + b + r.value && [] + r.value == r.value;
    }
  }

  function ReadOut(s: Stream): Read<TxOut> {
    match ReadDigits(s, 0)
    case Fail => Fail
    case Got(x, rest) =>
      if rest == [] || !rest[0].Text? then Fail else Got(TxOut(Decompressed(x), rest[0].script), rest[1..])
  }

  function ReadOuts(s: Stream, vAvail: seq<bool>): (r: Read<seq<TxOut>>)
    ensures r.Got? ==> |r.value| == |vAvail|
    decreases vAvail
  {
    if vAvail == [] then Got([], s)
    else
      match if vAvail[0] then ReadOut(s) else Got(NULL_OUT, s)
      case Fail => Fail
      case Got(o, rest) =>
        Prepended([o], ReadOuts(rest, vAvail[1..]))
  }

  /** The header code's own bits, and the number of mask bytes that are not zero. */
  function FirstTwo(nCode: nat): seq<bool> {
    [nCode / 2 % 2 == 1, nCode / 4 % 2 == 1]
  }

  function MaskCode(nCode: nat): nat {
    nCode / 8 + if nCode / 2 % 4 != 0 then 0 else 1
  }

  function ReadCoin(s: Stream): Read<Coin> {
    match ReadDigits(s, 0) case Fail => Fail case Got(nVersion, s1) =>
    match ReadDigits(s1, 0) case Fail => Fail case Got(nCode, s2) =>
    match ReadMask(s2, MaskCode(nCode)) case Fail => Fail case Got(bits, s3) =>
    match ReadOuts(s3, FirstTwo(nCode) + bits) case Fail => Fail case Got(vout, s4) =>
    match ReadDigits(s4, 0) case Fail => Fail case Got(nHeight, s5) =>
    Got(Coin(nCode % 2 == 1, Trim(vout), nHeight, nVersion), s5)
  }

  method UnpackByte(chAvail: Byte) returns (bits: seq<bool>)
    ensures bits == Bits8(chAvail)
  {
    bits := [];
    var p := 0;
    while p < 8
      invariant p <= 8 && bits == Bits8(chAvail)[..p]
    {
      var f := Bit(chAvail, p);
      bits := bits + [f];
      p := p + 1;
    }
  }

  method UnserializeMask(s: Stream, nMaskCode: nat) returns (r: Read<seq<bool>>)
    ensures r == ReadMask(s, nMaskCode)
  {
    hide Bits8;
    var at, left, vAvail: seq<bool> := s, nMaskCode, [];
    PrependTwice(vAvail, [], ReadMask(s, nMaskCode));
    while left > 0
      invariant ReadMask(s, nMaskCode) == Prepended(vAvail, ReadMask(at, left))
      decreases |at|
    {
      if at == [] || !at[0].Raw? {
        return Fail;
      }
      var chAvail := at[0].b;
      PrependTwice(vAvail, Bits8(chAvail), ReadMask(at[1..], if chAvail != 0 then left - 1 else left));
      var bits := UnpackByte(chAvail);
      vAvail := vAvail + bits;
      at := at[1..];
      if chAvail != 0 {
        left := left - 1;
      }
    }
    assert vAvail + [] == vAvail;
    r := Got(vAvail, at);
  }

  method UnserializeOut(s: Stream) returns (r: Read<TxOut>)
    ensures r == ReadOut(s)
  {
    var nVal := ReadVarInt(s);
    match nVal
    case Fail => return Fail;
    case Got(x, rest) =>
      var nValue := DecompressAmount(x);
      if rest == [] || !rest[0].Text? {
        return Fail;
      }
      return Got(TxOut(nValue, rest[0].script), rest[1..]);
  }

  method UnserializeOuts(s: Stream, vAvail: seq<bool>) returns (r: Read<seq<TxOut>>)
    ensures r == ReadOuts(s, vAvail)
  {
    hide ReadOut;
    var vout := seq(|vAvail|, _ => NULL_OUT);
    var at, i := s, 0;
    assert vAvail[0..] == vAvail && vout[..0] == [];
    PrependTwice([], [], ReadOuts(s, vAvail));
    while i < |vAvail|
      invariant i <= |vAvail| == |vout| && forall k :: i <= k < |vout| ==> vout[k] == NULL_OUT
      invariant ReadOuts(s, vAvail) == Prepended(vout[..i], ReadOuts(at, vAvail[i..]))
    {
      assert vAvail[i..][1..] == vAvail[i + 1..];
      ghost var here := vout[..i];
      if vAvail[i] {
        var out := UnserializeOut(at);
        if out == Fail {
          return Fail;
        }
        vout := vout[i := out.value];
        at := out.rest;
      }
      assert vout[..i + 1] == here + [vout[i]];
      PrependTwice(here, [vout[i]], ReadOuts(at, vAvail[i + 1..]));
      i := i + 1;
    }
    assert vout[..i] == vout && vout + [] == vout;
    r := Got(vout, at);
  }

  /** Reads a coin; where the stream ends too early, the original throws and the coin is not to be used. */
  method Unserialize(coins: CCoins, s: Stream) returns (ok: bool, rest: Stream)
    modifies coins
    ensures if ReadCoin(s).Got? then ok && Got(coins.Value(), rest) == ReadCoin(s) else !ok
  {
    hide ReadDigits, ReadMask, ReadOuts;
    ok, rest := false, s;
    var version := ReadVarInt(s);
    if version == Fail {
      return;
    }
    coins.nVersion := version.value;
    var header := ReadVarInt(version.rest);
    if header == Fail {
      return;
    }
    var nCode := header.value;
    coins.fCoinBase := nCode % 2 == 1;
    var vAvail := FirstTwo(nCode);
    var nMaskCode := MaskCode(nCode);
    var mask := UnserializeMask(header.rest, nMaskCode);
    if mask == Fail {
      return;
    }
    vAvail := vAvail + mask.value;
    var outs := UnserializeOuts(mask.rest, vAvail);
    if outs == Fail {
      return;
    }
    coins.vout := outs.value;
    var height := ReadVarInt(outs.rest);
    if height == Fail {
      return;
    }
    coins.nHeight := height.value;
    coins.Cleanup();
    return true, height.rest;
  }

  // ---------------------------------------------------------------- round trips

  /** Which outputs are left among n, from the i-th on. */
  function Avail(vout: seq<TxOut>, i: nat, n: nat): (r: seq<bool>)
    ensures |r| == n
  {
    seq(n, p requires 0 <= p < n => Left(vout, i + p))
  }

  lemma MaskBits(vout: seq<TxOut>, b: nat)
    ensures Bits8(Mask(vout, b)) == Avail(vout, 2 + 8 * b, 8)
  {
    forall p: nat | p < 8 ensures Bits8(Mask(vout, b))[p] == Avail(vout, 2 + 8 * b, 8)[p] {
      MaskBit(vout, b, 0, p);
    }
  }

  /** A mask that ends in a byte other than zero is read to exactly its end. */
  lemma {:induction false} MaskRead(vout: seq<TxOut>, b: nat, end: nat, rest: Stream)
    requires b <= end && (end > b ==> Mask(vout, end - 1) != 0)
    ensures ReadMask(MaskBytes(vout, b, end) + rest, Nonzero(vout, b, end)) == Got(Avail(vout, 2 + 8 * b, 8 * (end - b)), rest)
    decreases end - b
  {
    hide Mask, Bits8;
    if b == end {
      assert [] + rest == rest;
    } else {
      var s := MaskBytes(vout, b, end) + rest;
      assert s[1..] == MaskBytes(vout, b + 1, end) + rest;
      MaskRead(vout, b + 1, end, rest);
      MaskBits(vout, b);
      LastCounts(vout, b, end);
      AvailJoin(vout, 2 + 8 * b, 8, 8 * (end - b - 1));
    }
  }

  lemma AvailJoin(vout: seq<TxOut>, i: nat, m: nat, n: nat)
    ensures Avail(vout, i, m) + Avail(vout, i + m, n) == Avail(vout, i, m + n)
  {
  }

  lemma LastCounts(vout: seq<TxOut>, b: nat, end: nat)
    requires b < end && Mask(vout, end - 1) != 0
    ensures Nonzero(vout, b, end) > 0
  {
    NonzeroSnoc(vout, b, end - 1);
  }

  lemma OutRead(o: TxOut, rest: Stream)
    requires o.nValue >= 0
    ensures ReadOut(OutBytes(o) + rest) == Got(o, rest)
  {
    hide ReadDigits, Digits, Compressed, Decompressed;
    var x := Compressed(o.nValue);
    assert OutBytes(o) + rest == VarInt(x) + ([Text(o.scriptPubKey)] + rest);
    DigitsRead(x, false, [Text(o.scriptPubKey)] + rest);
    AmountsInverse(o.nValue);
  }

  /** The outputs as read: those left, and canonical nulls elsewhere. */
  function Refilled(vout: seq<TxOut>, i: nat, n: nat): (r: seq<TxOut>)
    ensures |r| == n
  {
    seq(n, p requires 0 <= p < n => if Left(vout, i + p) then vout[i + p] else NULL_OUT)
  }

  lemma AvailStep(vout: seq<TxOut>, i: nat, n: nat)
    requires n > 0
    ensures Avail(vout, i, n)[0] == Left(vout, i) && Avail(vout, i, n)[1..] == Avail(vout, i + 1, n - 1)
    ensures [if Left(vout, i) then vout[i] else NULL_OUT] + Refilled(vout, i + 1, n - 1) == Refilled(vout, i, n)
  {
  }

  lemma {:induction false} OutsRead(vout: seq<TxOut>, i: nat, n: nat, rest: Stream)
    requires ValuesFit(vout) && i <= |vout| <= i + n
    ensures ReadOuts(Outs(vout, i) + rest, Avail(vout, i, n)) == Got(Refilled(vout, i, n), rest)
    decreases n
  {
    hide ReadOut, OutBytes;
    if n == 0 {
      assert [] + rest == rest;
    } else {
      AvailStep(vout, i, n);
      if i < |vout| {
        OutsRead(vout, i + 1, n - 1, rest);
        if !vout[i].IsNull() {
          OutRead(vout[i], Outs(vout, i + 1) + rest);
          assert OutBytes(vout[i]) + Outs(vout, i + 1) + rest == OutBytes(vout[i]) + (Outs(vout, i + 1) + rest);
        } else {
          assert [] + Outs(vout, i + 1) + rest == Outs(vout, i + 1) + rest;
        }
      } else {
        NothingRead(vout, i, n, rest);
        assert Outs(vout, i) + rest == rest;
      }
    }
  }

  lemma {:induction false} NothingRead(vout: seq<TxOut>, i: nat, n: nat, rest: Stream)
    requires i >= |vout|
    ensures ReadOuts(rest, Avail(vout, i, n)) == Got(Refilled(vout, i, n), rest)
    decreases n
  {
    if n > 0 {
      NothingRead(vout, i + 1, n - 1, rest);
      AvailStep(vout, i, n);
    }
  }

  lemma CodeReads(c: Coin, nonzero: nat)
    requires Left(c.vout, 0) || Left(c.vout, 1) || nonzero > 0
    ensures var nCode := CodeOf(c, nonzero);
            FirstTwo(nCode) == Avail(c.vout, 0, 2) && MaskCode(nCode) == nonzero && (nCode % 2 == 1 <==> c.fCoinBase)
  {
    var first, second := Left(c.vout, 0), Left(c.vout, 1);
    var m := nonzero - if first || second then 0 else 1;
    CodeParts(m, if c.fCoinBase then 1 else 0, if first then 1 else 0, if second then 1 else 0);
  }

  lemma CodeParts(m: nat, a: nat, b: nat, d: nat)
    requires a <= 1 && b <= 1 && d <= 1
    ensures var n := 8 * m + a + 2 * b + 4 * d;
            n % 2 == a && n / 2 % 2 == b && n / 4 % 2 == d && n / 8 == m && n / 2 % 4 == b + 2 * d
  {
    var n := 8 * m + a + 2 * b + 4 * d;
    Quotient(n, 2, 4 * m + b + 2 * d, a);
    Quotient(n / 2, 2, 2 * m + d, b);
    Quotient(n / 2, 4, m, b + 2 * d);
    Quotient(n, 4, 2 * m + d, a + 2 * b);
    Quotient(n / 4, 2, m, d);
    Quotient(n, 8, m, a + 2 * b + 4 * d);
  }

  lemma Regroup(a: Stream, b: Stream, c: Stream, d: Stream, e: Stream, rest: Stream)
    ensures a + b + c + d + e + rest == a + (b + (c + (d + (e + rest))))
  {
  }

  lemma ReadCoinOf(s: Stream, c: Coin, nCode: nat, bits: seq<bool>, vout: seq<TxOut>, s1: Stream, s2: Stream, s3: Stream,
      s4: Stream, rest: Stream)
    requires ReadDigits(s, 0) == Got(Kept(c.nVersion), s1) && ReadDigits(s1, 0) == Got(nCode, s2)
    requires ReadMask(s2, MaskCode(nCode)) == Got(bits, s3) && ReadOuts(s3, FirstTwo(nCode) + bits) == Got(vout, s4)
    requires ReadDigits(s4, 0) == Got(c.nHeight, rest)
    requires (nCode % 2 == 1) == c.fCoinBase && Trim(vout) == c.vout
    ensures ReadCoin(s) == Got(c.(nVersion := Kept(c.nVersion)), rest)
  {
    hide ReadDigits, ReadMask, ReadOuts, MaskCode, FirstTwo, Trim;
  }

  /** Every storable coin comes back, its own tokens and no more are consumed, and it is the coin it was if and only if its
      version is not negative. */
  lemma CoinRoundTrip(c: Coin, rest: Stream)
    requires Storable(c)
    ensures ReadCoin(CoinBytes(c) + rest) == Got(c.(nVersion := Kept(c.nVersion)), rest)
    ensures ReadCoin(CoinBytes(c) + rest) == Got(c, rest) <==> c.nVersion >= 0
  {
    hide ReadDigits, Digits, ReadMask, MaskBytes, ReadOuts, Outs, Mask, CodeOf, MaskCode, FirstTwo, Nonzero, Avail, VarInt, Trim,
      Refilled, ReadCoin, Compressed;
    var nBytes := MaskLength(c.vout);
    SomethingLeft(c.vout);
    TrimmedMask(c.vout);
    var nCode := CodeOf(c, Nonzero(c.vout, 0, nBytes));
    CodeReads(c, Nonzero(c.vout, 0, nBytes));
    var s4 := VarInt(c.nHeight) + rest;
    var s3 := Outs(c.vout, 0) + s4;
    var s2 := MaskBytes(c.vout, 0, nBytes) + s3;
    var s1 := VarInt(nCode) + s2;
    Regroup(VarInt(c.nVersion), VarInt(nCode), MaskBytes(c.vout, 0, nBytes), Outs(c.vout, 0), VarInt(c.nHeight), rest);
    VarIntKept(c.nVersion);
    VarIntIsBijective(VarInt(c.nVersion) + s1, Kept(c.nVersion), s1);
    VarIntIsBijective(s1, nCode, s2);
    MaskRead(c.vout, 0, nBytes, s3);
    AvailJoin(c.vout, 0, 2, 8 * nBytes);
    OutsRead(c.vout, 0, 2 + 8 * nBytes, s4);
    VarIntIsBijective(s4, c.nHeight, rest);
    RefilledTrims(c, nBytes);
    ReadCoinOf(VarInt(c.nVersion) + s1, c, nCode, Avail(c.vout, 2, 8 * nBytes), Refilled(c.vout, 0, 2 + 8 * nBytes), s1, s2, s3, s4, rest);
  }

  lemma VarIntKept(n: int)
    ensures VarInt(n) == VarInt(Kept(n))
  {
  }

  lemma RefilledTrims(c: Coin, nBytes: nat)
    requires c.Canonical() && nBytes == Span(c.vout)
    ensures Trim(Refilled(c.vout, 0, 2 + 8 * nBytes)) == c.vout
  {
    TrimUnique(Refilled(c.vout, 0, 2 + 8 * nBytes), c.vout);
  }

  // ---------------------------------------------------------------- undo records

  function UndoBytes(undo: TxInUndo): (s: Stream)
    requires undo.txout.nValue >= 0
  {
    VarInt(undo.nHeight * 2 + if undo.fCoinBase then 1 else 0)
    + (if undo.nHeight > 0 then VarInt(undo.nVersion) else []) + OutBytes(undo.txout)
  }

  /** Reading into a record that holds some version already: without a height, the version stays. */
  function ReadUndo(s: Stream, nVersion0: int): Read<TxInUndo> {
    match ReadDigits(s, 0) case Fail => Fail case Got(nCode, s1) =>
    match if nCode / 2 > 0 then ReadDigits(s1, 0) else Got(0, s1) case Fail => Fail case Got(version, s2) =>
    match ReadOut(s2) case Fail => Fail case Got(txout, s3) =>
    Got(TxInUndo(txout, nCode % 2 == 1, nCode / 2, if nCode / 2 > 0 then version else nVersion0), s3)
  }

  /** An undo record comes back if and only if its version was stored and is not negative, or was not stored and happened
      to be there already. Spend sets a version only together with a height above 0. */
  lemma UndoRoundTrip(undo: TxInUndo, nVersion0: int, rest: Stream)
    requires undo.txout.nValue >= 0
    ensures ReadUndo(UndoBytes(undo) + rest, nVersion0) ==
            Got(undo.(nVersion := if undo.nHeight > 0 then Kept(undo.nVersion) else nVersion0), rest)
    ensures ReadUndo(UndoBytes(undo) + rest, nVersion0) == Got(undo, rest) <==>
            if undo.nHeight > 0 then undo.nVersion >= 0 else undo.nVersion == nVersion0
  {
    hide ReadDigits, Digits, ReadOut, OutBytes;
    var nCode := undo.nHeight * 2 + if undo.fCoinBase then 1 else 0;
    var s2 := OutBytes(undo.txout) + rest;
    var s1 := (if undo.nHeight > 0 then VarInt(undo.nVersion) else []) + s2;
    assert UndoBytes(undo) + rest == VarInt(nCode) + s1;
    DigitsRead(nCode, false, s1);
    if undo.nHeight > 0 {
      DigitsRead(Kept(undo.nVersion), false, s2);
    } else {
      assert s1 == s2;
    }
    OutRead(undo.txout, rest);
  }
}
