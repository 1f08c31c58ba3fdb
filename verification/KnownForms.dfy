/** The formats on the examples that the original itself gives: in comments, and as expected values in its unit tests. A round
    trip leaves open which form is written; these do not. */
module KnownForms {
  import opened Coins
  import opened Common
  import opened CoinsCodec
  import Base58
  import Compact

  // ---------------------------------------------------------------- amounts and coins

  lemma BigPowers()
    ensures Pow10(0) == 1 && Pow10(6) == 1000000 && Pow10(8) == 100000000 && Pow10(9) == 1000000000
  {
    assert Pow10(1) == 10 && Pow10(2) == 100 && Pow10(3) == 1000;
    assert Pow10(4) == 10000 && Pow10(5) == 100000 && Pow10(6) == 1000000;
    assert Pow10(7) == 10000000 && Pow10(8) == 100000000;
  }

  /** One unit, a cent, a coin, fifty coins, all coins, and the three amounts of the comments. */
  lemma KnownAmounts()
    ensures Compressed(0) == 0x0 && Compressed(1) == 0x1 && Compressed(1000000) == 0x7 && Compressed(100000000) == 0x9
    ensures Compressed(5000000000) == 0x32 && Compressed(2100000000000000) == 0x1406f40
    ensures Compressed(60000000000) == 600 && Compressed(234925952) == 2114333561 && Compressed(110397) == 993571
  {
    hide Strip;
    BigPowers();
    StripScaled(1, 0, 0);
    StripScaled(1, 6, 0);
    StripScaled(1, 8, 0);
    StripScaled(5, 9, 0);
    StripScaled(2100000, 9, 0);
    StripScaled(60, 9, 0);
    StripScaled(234925952, 0, 0);
    StripScaled(110397, 0, 0);
  }

  lemma ThreeBytes(n: nat, a: Byte, b: Byte, c: Byte)
    requires 128 <= a && 128 <= b && c < 128 && n == ((a - 128 + 1) * 128 + (b - 128) + 1) * 128 + c
    ensures VarInt(n) == [Raw(a), Raw(b), Raw(c)]
  {
    var m := (a - 128 + 1) * 128 + (b - 128);
    LastByte(n, m + 1, c, false);
    LastByte(m, a - 128 + 1, b - 128, true);
    LastByte(a - 128, 0, a - 128, true);
    assert [] + [Raw(a)] == [Raw(a)];
    assert [Raw(a)] + [Raw(b)] == [Raw(a), Raw(b)];
    assert [Raw(a), Raw(b)] + [Raw(c)] == [Raw(a), Raw(b), Raw(c)];
  }

  lemma LastByte(n: nat, q: nat, r: nat, more: bool)
    requires n == q * 128 + r && r < 128
    ensures Digits(n, more) == (if q == 0 then [] else Digits(q - 1, true)) + [Raw(r + if more then 128 else 0)]
  {
    Quotient(n, 128, q, r);
    DigitsStep(n, more);
  }

  lemma TwoBytes(n: nat, a: Byte, b: Byte)
    requires 128 <= a && b < 128 && n == (a - 128 + 1) * 128 + b
    ensures VarInt(n) == [Raw(a), Raw(b)]
  {
    LastByte(n, a - 128 + 1, b, false);
    LastByte(a - 128, 0, a - 128, true);
    assert [] + [Raw(a)] == [Raw(a)];
    assert [Raw(a)] + [Raw(b)] == [Raw(a), Raw(b)];
  }

  lemma OneByte(n: nat)
    requires n < 128
    ensures VarInt(n) == [Raw(n)]
  {
    LastByte(n, 0, n, false);
    assert [] + [Raw(n)] == [Raw(n)];
  }

  /** The first example of the comment on CCoins: version 1, one output left, the second, of 600 coins, at height 203998. */
  lemma FirstExample(script: Script)
    ensures var c := Coin(false, [NULL_OUT, TxOut(60000000000, script)], 203998, 1);
            !c.vout[1].IsNull() && !c.IsPruned() && CoinBytes(c) == [Raw(0x01), Raw(0x04), Raw(0x83), Raw(0x58), Text(script), Raw(0x8b), Raw(0xb8), Raw(0x5e)]
  {
    hide Compressed, VarInt, Digits, Mask;
    var vout := [NULL_OUT, TxOut(60000000000, script)];
    var c := Coin(false, vout, 203998, 1);
    assert !c.vout[1].IsNull();
    assert MaskLength(vout) == 0;
    OneByte(1);
    OneByte(4);
    KnownAmounts();
    TwoBytes(600, 0x83, 0x58);
    ThreeBytes(203998, 0x8b, 0xb8, 0x5e);
    assert Outs(vout, 2) == [];
    assert Outs(vout, 1) == OutBytes(vout[1]) + [];
    assert Outs(vout, 0) == [] + Outs(vout, 1);
    assert CodeOf(c, 0) == 4;
    assert MaskBytes(vout, 0, 0) == [];
  }

  lemma NothingThere(vout: seq<TxOut>, i: nat)
    requires i < |vout| && ValuesFit(vout) && vout[i].IsNull()
    ensures Outs(vout, i) == Outs(vout, i + 1)
  {
    assert [] + Outs(vout, i + 1) == Outs(vout, i + 1);
  }

  lemma {:induction false} NothingUpTo(vout: seq<TxOut>, i: nat, j: nat)
    requires i <= j <= |vout| && ValuesFit(vout) && forall k :: i <= k < j ==> vout[k].IsNull()
    ensures Outs(vout, i) == Outs(vout, j)
    decreases j - i
  {
    hide Outs, OutBytes;
    if i < j {
      NothingThere(vout, i);
      NothingUpTo(vout, i + 1, j);
    }
  }

  /** A mask byte with one output left. */
  lemma {:induction false} OneBitMask(vout: seq<TxOut>, b: nat, i: nat, p: nat)
    requires i <= p < 8 && forall k :: i <= k < 8 ==> (LeftAt(vout, b, k) <==> k == p)
    ensures MaskFrom(vout, b, i) == Pow2(p - i)
    decreases 8 - i
  {
    MaskUnfolds(vout, b, i);
    if i < p {
      OneBitMask(vout, b, i + 1, p);
    }
  }

  function Blank(k: nat): (vout: seq<TxOut>)
    ensures |vout| == k && forall i :: 0 <= i < k ==> vout[i] == NULL_OUT
  {
    seq(k, _ => NULL_OUT)
  }

  lemma TwoMaskBytes(vout: seq<TxOut>)
    requires |vout| == 17 && !vout[4].IsNull() && !vout[16].IsNull() && forall i :: 0 <= i < 17 && i != 4 && i != 16 ==> vout[i].IsNull()
    ensures MaskLength(vout) == 2 && Nonzero(vout, 0, 2) == 2
    ensures MaskBytes(vout, 0, 2) == [Raw(0x04), Raw(0x40)]
  {
    hide MaskFrom, MaskLength;
    TrimmedMask(vout);
    OneBitMask(vout, 0, 0, 2);
    OneBitMask(vout, 1, 0, 6);
    assert Pow2(0) == 1 && Pow2(1) == 2 && Pow2(2) == 4;
    assert Pow2(3) == 8 && Pow2(4) == 16 && Pow2(5) == 32 && Pow2(6) == 64;
    assert Mask(vout, 0) == 4 && Mask(vout, 1) == 64;
    assert MaskBytes(vout, 2, 2) == [];
    assert MaskBytes(vout, 1, 2) == [Raw(Mask(vout, 1))] + [];
    assert MaskBytes(vout, 0, 2) == [Raw(Mask(vout, 0))] + MaskBytes(vout, 1, 2);
    assert Nonzero(vout, 2, 2) == 0 && Nonzero(vout, 1, 2) == 1;
  }

  lemma FiveBytes()
    ensures VarInt(2114333561) == [Raw(0x86), Raw(0xef), Raw(0x97), Raw(0xd5), Raw(0x79)]
  {
    hide Digits;
    LastByte(2114333561, 16518230, 0x79, false);
    LastByte(16518229, 129048, 0x55, true);
    LastByte(129047, 1008, 0x17, true);
    LastByte(1007, 7, 0x6f, true);
    LastByte(6, 0, 6, true);
    assert [] + [Raw(0x86)] == [Raw(0x86)];
    assert [Raw(0x86)] + [Raw(0xef)] == [Raw(0x86), Raw(0xef)];
    assert [Raw(0x86), Raw(0xef)] + [Raw(0x97)] == [Raw(0x86), Raw(0xef), Raw(0x97)];
    assert [Raw(0x86), Raw(0xef), Raw(0x97)] + [Raw(0xd5)] == [Raw(0x86), Raw(0xef), Raw(0x97), Raw(0xd5)];
  }

  /** The second: a coinbase with its fifth and seventeenth outputs left, two mask bytes and none of the first two outputs. */
  lemma SecondExample(one: Script, two: Script)
    ensures var c := Coin(true, Blank(4) + [TxOut(234925952, one)] + Blank(11) + [TxOut(110397, two)], 120891, 1);
            !c.vout[4].IsNull() && !c.IsPruned()
            && CoinBytes(c) == [Raw(0x01)] + [Raw(0x09)] + [Raw(0x04), Raw(0x40)]
                 + ([Raw(0x86), Raw(0xef), Raw(0x97), Raw(0xd5), Raw(0x79), Text(one)]
                    + [Raw(0xbb), Raw(0xd1), Raw(0x23), Text(two)])
                 + [Raw(0x86), Raw(0xaf), Raw(0x3b)]
  {
    hide Compressed, VarInt, Digits, Mask, MaskBytes, Nonzero, MaskLength, OutBytes, Outs;
    var vout := Blank(4) + [TxOut(234925952, one)] + Blank(11) + [TxOut(110397, two)];
    var c := Coin(true, vout, 120891, 1);
    assert vout[4] == TxOut(234925952, one) && vout[16] == TxOut(110397, two);
    TwoMaskBytes(vout);
    OneByte(1);
    OneByte(9);
    ThreeBytes(120891, 0x86, 0xaf, 0x3b);
    assert CodeOf(c, 2) == 9;
    OutsOfTwo(vout);
    TwoOutBytes(one, two);
  }

  lemma OutsOfTwo(vout: seq<TxOut>)
    requires |vout| == 17 && ValuesFit(vout) && vout[4].nValue >= 0 && vout[16].nValue >= 0
    requires forall i :: 0 <= i < 17 && i != 4 && i != 16 ==> vout[i].IsNull()
    ensures Outs(vout, 0) == OutBytes(vout[4]) + OutBytes(vout[16])
  {
    hide OutBytes;
    NothingUpTo(vout, 0, 4);
    NothingUpTo(vout, 5, 16);
    assert Outs(vout, 17) == [];
    assert Outs(vout, 16) == OutBytes(vout[16]) + [];
    assert Outs(vout, 4) == OutBytes(vout[4]) + Outs(vout, 5);
  }

  lemma TwoOutBytes(one: Script, two: Script)
    ensures OutBytes(TxOut(234925952, one)) == [Raw(0x86), Raw(0xef), Raw(0x97), Raw(0xd5), Raw(0x79), Text(one)]
    ensures OutBytes(TxOut(110397, two)) == [Raw(0xbb), Raw(0xd1), Raw(0x23), Text(two)]
  {
    hide Compressed, VarInt, Digits;
    KnownAmounts();
    FiveBytes();
    ThreeBytes(993571, 0xbb, 0xd1, 0x23);
  }

  // ---------------------------------------------------------------- compact targets

  /** Expected values in the unit tests. */
  lemma KnownTargets()
    ensures Compact.Decoded(0x01003456) == 0 && Compact.Decoded(0x01123456) == 0x12 && Compact.Decoded(0x01fedcba) == -0x7e
    ensures Compact.Decoded(0x02123456) == 0x1234 && Compact.Decoded(0x03123456) == 0x123456
    ensures Compact.Decoded(0x04123456) == 0x12345600 && Compact.Decoded(0x04923456) == -0x12345600
    ensures Compact.Decoded(0x05009234) == 0x92340000
  {
    Compact.SmallPowers();
  }

  lemma KnownCompacts()
    ensures Compact.Encoded(0) == 0 && Compact.Encoded(0x12) == 0x01120000 && Compact.Encoded(0x80) == 0x02008000
    ensures Compact.Encoded(-0x7e) == 0x01fe0000 && Compact.Encoded(0x1234) == 0x02123400 && Compact.Encoded(0x123456) == 0x03123456
    ensures Compact.Encoded(0x12345600) == 0x04123456 && Compact.Encoded(-0x12345600) == 0x04923456
    ensures Compact.Encoded(0x92340000) == 0x05009234
  {
    Compact.SmallPowers();
    KnownSizes();
  }

  lemma KnownSizes()
    ensures Compact.Size(0) == 0 && Compact.Size(0x12) == 1 && Compact.Size(0x7e) == 1 && Compact.Size(0x80) == 2
    ensures Compact.Size(0x1234) == 2 && Compact.Size(0x123456) == 3
    ensures Compact.Size(0x12345600) == 4 && Compact.Size(0x92340000) == 5
  {
    Compact.SmallPowers();
    assert Compact.Pow256(4) == 0x1_0000_0000 && Compact.Pow256(5) == 0x100_0000_0000;
    Compact.BytesUnique(0x24, 0);
    Compact.BytesUnique(0xfc, 0);
    Compact.BytesUnique(0x100, 1);
    Compact.BytesUnique(0x2468, 1);
    Compact.BytesUnique(0x2468AC, 2);
    Compact.BytesUnique(0x2468AC00, 3);
    Compact.BytesUnique(0x1_2468_0000, 4);
  }

  // ---------------------------------------------------------------- base 58

  lemma KnownAlphabet()
    ensures Base58.Alphabet() == "123456789" + "ABCDEFGH" + "JKLMN" + "PQRSTUVWXYZ" + "abcdefghijk" + "mnopqrstuvwxyz"
  {
    hide Base58.IsSpace;
    assert Base58.Run('1', 9) == "123456789";
    assert Base58.Run('A', 8) == "ABCDEFGH";
    assert Base58.Run('J', 5) == "JKLMN";
    assert Base58.Run('P', 11) == "PQRSTUVWXYZ";
    assert Base58.Run('a', 11) == "abcdefghijk";
    assert Base58.Run('m', 14) == "mnopqrstuvwxyz";
  }

  lemma KnownBytes()
    ensures Base58.Val(256, [0x57, 0x2e, 0x47, 0x94]) == 1462650772
  {
    hide Base58.Val;
    NoValue(256);
    Base58.ValAppend(256, [], 0x57);
    Base58.ValAppend(256, [0x57], 0x2e);
    Base58.ValAppend(256, [0x57, 0x2e], 0x47);
    Base58.ValAppend(256, [0x57, 0x2e, 0x47], 0x94);
    assert [] + [0x57] == [0x57] && [0x57] + [0x2e] == [0x57, 0x2e] && [0x57, 0x2e] + [0x47] == [0x57, 0x2e, 0x47];
    assert [0x57, 0x2e, 0x47] + [0x94] == [0x57, 0x2e, 0x47, 0x94];
  }

  lemma NoValue(base: nat)
    ensures Base58.Val(base, []) == 0
  {
  }

  lemma KnownPlacesValue()
    ensures Base58.Val(58, [2, 13, 14, 27, 6, 44]) == 1462650772
  {
    hide Base58.Val;
    NoValue(58);
    Base58.ValAppend(58, [], 2);
    Base58.ValAppend(58, [2], 13);
    Base58.ValAppend(58, [2, 13], 14);
    Base58.ValAppend(58, [2, 13, 14], 27);
    Base58.ValAppend(58, [2, 13, 14, 27], 6);
    Base58.ValAppend(58, [2, 13, 14, 27, 6], 44);
    assert [] + [2] == [2] && [2] + [13] == [2, 13] && [2, 13] + [14] == [2, 13, 14];
    assert [2, 13, 14] + [27] == [2, 13, 14, 27] && [2, 13, 14, 27] + [6] == [2, 13, 14, 27, 6];
    assert [2, 13, 14, 27, 6] + [44] == [2, 13, 14, 27, 6, 44];
  }

  lemma KnownPlaces()
    ensures var a := Base58.Alphabet();
            a[0] == '1' && a[2] == '3' && a[6] == '7' && a[13] == 'E' && a[14] == 'F' && a[27] == 'U' && a[44] == 'm'
  {
    hide Base58.Alphabet;
    KnownAlphabet();
  }

  lemma KnownDigits()
    ensures Base58.Convert(256, 58, [0x57, 0x2e, 0x47, 0x94]) == [2, 13, 14, 27, 6, 44]
  {
    hide Base58.Val, Base58.Rep, Base58.LeadingZeros;
    KnownBytes();
    KnownPlacesValue();
    var ds, bytes := [2, 13, 14, 27, 6, 44], [0x57, 0x2e, 0x47, 0x94];
    NoLeadingZero(ds);
    NoLeadingZero(bytes);
    Base58.RepVal(58, ds);
    assert Base58.Zeros(0) + ds == ds;
  }

  lemma NoLeadingZero(ds: Base58.Digits)
    requires ds != [] && ds[0] != 0
    ensures Base58.LeadingZeros(ds) == 0
  {
  }

  /** A leading zero byte is a leading 1. */
  lemma LeadingZeroStays(bytes: Base58.Digits)
    requires bytes != [] && bytes[0] != 0
    ensures Base58.Convert(256, 58, [0] + bytes) == [0] + Base58.Convert(256, 58, bytes)
  {
    hide Base58.Val, Base58.Rep, Base58.LeadingZeros;
    NoLeadingZero(bytes);
    Base58.ValZeros(256, 1, bytes);
    assert Base58.Zeros(1) == [0];
    Base58.ZerosUnique([0] + bytes, 1);
    var rep := Base58.Rep(58, Base58.Val(256, bytes));
    assert Base58.Zeros(0) + rep == rep;
  }

  /** An expected value in the unit tests, and the same with a leading zero byte in front of it. */
  lemma KnownStrings()
    ensures Base58.Encoded([0x57, 0x2e, 0x47, 0x94]) == "3EFU7m"
    ensures Base58.Encoded([0, 0x57, 0x2e, 0x47, 0x94]) == "13EFU7m"
  {
    hide Base58.Convert, Base58.Alphabet;
    KnownDigits();
    LeadingZeroStays([0x57, 0x2e, 0x47, 0x94]);
    assert [0] + [0x57, 0x2e, 0x47, 0x94] == [0, 0x57, 0x2e, 0x47, 0x94];
    KnownPlaces();
  }
}
