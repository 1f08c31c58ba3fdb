/** Base58: a change of base between 256 and 58 that keeps leading zeros, with the big-number conversions, the sign byte
    and the white space of the original. */
module Base58 {
  import opened Common
  import Utxo

  type Digits = seq<nat>

  // ---------------------------------------------------------------- positional notation

  predicate InBase(base: nat, ds: Digits) {
    forall i :: 0 <= i < |ds| ==> ds[i] < base
  }

  /** The number that digits stand for, most significant digit first. */
  function Val(base: nat, ds: Digits): nat {
    if ds == [] then 0 else Val(base, ds[..|ds| - 1]) * base + ds[|ds| - 1]
  }

  /** The digits of a number, without leading zeros. */
  function Rep(base: nat, n: nat): (ds: Digits)
    requires base > 1
    ensures ds != [] ==> ds[0] != 0
    ensures InBase(base, ds) && (ds == [] <==> n == 0)
  {
    if n == 0 then [] else
      Smaller(n, base);
      Rep(base, n / base) + [n % base]
  }

  lemma Smaller(n: nat, base: nat)
    requires n > 0 && base > 1
    ensures n / base < n && n % base < base && (n / base == 0 ==> n % base != 0) && n / base * base + n % base == n
  {
    Divided(n, base);
    AtLeastTwice(n / base, base);
  }

  lemma AtLeastTwice(q: nat, base: nat)
    requires base >= 2
    ensures q * base >= 2 * q
  {
  }

  lemma ValAppend(base: nat, ds: Digits, d: nat)
    ensures Val(base, ds + [d]) == Val(base, ds) * base + d
  {
    assert (ds + [d])[..|ds|] == ds;
  }

  lemma {:induction false} ValRep(base: nat, n: nat)
    requires base > 1
    ensures Val(base, Rep(base, n)) == n
  {
    if n > 0 {
      Smaller(n, base);
      var q, d := n / base, n % base;
      ValRep(base, q);
      ValAppend(base, Rep(base, q), d);
    }
  }

  function Zeros(n: nat): (ds: Digits)
    ensures |ds| == n
  {
    seq(n, _ => 0)
  }

  function LeadingZeros(ds: Digits): (z: nat)
    ensures z <= |ds| && (forall i :: 0 <= i < z ==> ds[i] == 0) && (z < |ds| ==> ds[z] != 0)
  {
    if ds == [] || ds[0] != 0 then 0 else 1 + LeadingZeros(ds[1..])
  }

  lemma ZerosUnique(ds: Digits, z: nat)
    requires z <= |ds| && (forall i :: 0 <= i < z ==> ds[i] == 0) && (z < |ds| ==> ds[z] != 0)
    ensures LeadingZeros(ds) == z
  {
    hide LeadingZeros;
  }

  lemma Recombine(v: nat, base: nat, d: nat)
    requires d < base
    ensures (v * base + d) / base == v && (v * base + d) % base == d
    ensures v * base + d == 0 <==> v == 0 && d == 0
  {
    var n := v * base + d;
    Quotient(n, base, v, d);
    Divided(n, base);
    assert v > 0 ==> v * base > 0;
  }

  lemma RepAppend(base: nat, v: nat, d: nat)
    requires base > 1 && d < base
    ensures Rep(base, v * base + d) == if v == 0 && d == 0 then [] else Rep(base, v) + [d]
  {
    Recombine(v, base, d);
  }

  lemma LeadingAppend(ds: Digits, d: nat)
    ensures LeadingZeros(ds + [d]) == if LeadingZeros(ds) < |ds| || d != 0 then LeadingZeros(ds) else |ds| + 1
  {
    hide LeadingZeros;
    var z := LeadingZeros(ds);
    ZerosUnique(ds + [d], if z < |ds| || d != 0 then z else |ds| + 1);
  }

  /** A number has one representation: reading digits and writing the number again drops the leading zeros only. */
  lemma {:induction false} RepVal(base: nat, ds: Digits)
    requires base > 1 && InBase(base, ds)
    ensures Rep(base, Val(base, ds)) == ds[LeadingZeros(ds)..]
  {
    if ds != [] {
      hide Rep, LeadingZeros;
      var last := |ds| - 1;
      var front, d := ds[..last], ds[last];
      assert ds == front + [d];
      RepVal(base, front);
      RepAppend(base, Val(base, front), d);
      LeadingAppend(front, d);
      RepZero(base, Val(base, front));
    }
  }

  lemma RepZero(base: nat, n: nat)
    requires base > 1
    ensures Rep(base, n) == [] <==> n == 0
  {
  }

  lemma {:induction false} ValZeros(base: nat, z: nat, ds: Digits)
    ensures Val(base, Zeros(z) + ds) == Val(base, ds)
  {
    if ds != [] {
      ValZeros(base, z, ds[..|ds| - 1]);
      assert (Zeros(z) + ds)[..z + |ds| - 1] == Zeros(z) + ds[..|ds| - 1];
    } else if z > 0 {
      ValZeros(base, z - 1, []);
      assert (Zeros(z) + ds)[..z - 1] == Zeros(z - 1) + [];
    }
  }

  /** Change of base: the number is rewritten, leading zeros are copied. */
  function Convert(a: nat, b: nat, ds: Digits): (r: Digits)
    requires b > 1
    ensures InBase(b, r)
  {
    Zeros(LeadingZeros(ds)) + Rep(b, Val(a, ds))
  }

  /** Changing base and back again is the identity on all digit strings, for any two bases. */
  lemma ConvertInverts(a: nat, b: nat, ds: Digits)
    requires a > 1 && b > 1 && InBase(a, ds)
    ensures Convert(b, a, Convert(a, b, ds)) == ds
  {
    hide LeadingZeros, Val, Rep;
    var z, n := LeadingZeros(ds), Val(a, ds);
    var r := Convert(a, b, ds);
    ZerosUnique(r, z);
    ValZeros(b, z, Rep(b, n));
    ValRep(b, n);
    RepVal(a, ds);
    assert ds == Zeros(z) + ds[z..];
  }

  // ---------------------------------------------------------------- big numbers

  /** CBigNum::setvch: little-endian bytes, the top bit of the last one being the sign. */
  function SetVch(vch: Digits): int {
    var ds := Reversed(vch);
    if ds == [] || ds[0] < 0x80 then Val(256, ds) else 0 - Val(256, ds[0 := ds[0] - 0x80])
  }

  /** CBigNum::getvch of a number that is not negative: little-endian, with a zero byte where the top bit is in use. */
  function GetVch(n: nat): Digits {
    var vch := Reversed(Rep(256, n));
    if vch != [] && vch[|vch| - 1] >= 0x80 then vch + [0] else vch
  }

  // ---------------------------------------------------------------- strings

  function Run(first: char, n: nat): (s: string)
    requires first as int + n <= 128
    ensures |s| == n && forall i :: 0 <= i < n ==> s[i] == first + i as char
  {
    seq(n, i requires 0 <= i < n => first + i as char)
  }

  /** 123456789ABCDEFGHJKLMNPQRSTUVWXYZabcdefghijkmnopqrstuvwxyz: no 0, I, O or l. */
  function Alphabet(): (s: string)
    ensures |s| == 58 && forall i, j :: 0 <= i < j < 58 ==> s[i] < s[j]
    ensures forall i :: 0 <= i < 58 ==> s[i] != '\0' && !IsSpace(s[i])
  {
    Run('1', 9) + Run('A', 8) + Run('J', 5) + Run('P', 11) + Run('a', 11) + Run('m', 14)
  }

  predicate IsSpace(c: char) {
    c == ' ' || '\t' <= c <= '\r'
  }

  /** strchr: the place of a character in the alphabet, or -1. */
  function IndexOf(c: char): (d: int)
    ensures -1 <= d < 58 && (d >= 0 ==> Alphabet()[d] == c)
    ensures d == -1 ==> forall i :: 0 <= i < 58 ==> Alphabet()[i] != c
  {
    if i :| 0 <= i < 58 && Alphabet()[i] == c then i else -1
  }

  function CharsOf(ds: Digits): (s: string)
    requires InBase(58, ds)
    ensures |s| == |ds|
  {
    seq(|ds|, i requires 0 <= i < |ds| => Alphabet()[ds[i]])
  }

  predicate InAlphabet(s: string) {
    forall i :: 0 <= i < |s| ==> IndexOf(s[i]) >= 0
  }

  function DigitsOf(s: string): (ds: Digits)
    requires InAlphabet(s)
    ensures |ds| == |s| && InBase(58, ds)
  {
    seq(|s|, i requires 0 <= i < |s| => IndexOf(s[i]))
  }

  lemma CharsAreDigits(ds: Digits)
    requires InBase(58, ds)
    ensures InAlphabet(CharsOf(ds)) && DigitsOf(CharsOf(ds)) == ds
  {
  }

  lemma IndexOfChar(d: nat)
    requires d < 58
    ensures IndexOf(Alphabet()[d]) == d
  {
  }

  lemma DigitsAreChars(s: string)
    requires InAlphabet(s)
    ensures CharsOf(DigitsOf(s)) == s
  {
  }

  /** The base-58 string of a byte string. */
  function Encoded(bytes: Digits): string {
    CharsOf(Convert(256, 58, bytes))
  }

  lemma SetVchPositive(bytes: Digits)
    ensures SetVch(Reversed(bytes) + [0]) == Val(256, bytes)
  {
    assert Reversed(Reversed(bytes) + [0]) == Zeros(1) + bytes;
    ValZeros(256, 1, bytes);
  }

  lemma ReversedSnoc(str: string, c: char)
    ensures Reversed(str + [c]) == [c] + Reversed(str)
  {
  }

  lemma CharsStep(n: nat)
    requires n > 0
    ensures CharsOf(Rep(58, n)) == CharsOf(Rep(58, n / 58)) + [Alphabet()[n % 58]]
  {
  }

  /** The characters of a number, least significant first. */
  method WriteNumber(n: nat) returns (str: string)
    ensures Reversed(str) == CharsOf(Rep(58, n))
  {
    hide Alphabet, Rep, CharsOf, Reversed;
    str := "";
    var bn := n;
    assert Reversed("") == "";
    assert CharsOf(Rep(58, bn)) + Reversed("") == CharsOf(Rep(58, bn));
    while bn > 0
      invariant CharsOf(Rep(58, n)) == CharsOf(Rep(58, bn)) + Reversed(str)
    {
      Smaller(bn, 58);
      CharsStep(bn);
      var dv, rem := bn / 58, bn % 58;
      ReversedSnoc(str, Alphabet()[rem]);
      assert (CharsOf(Rep(58, dv)) + [Alphabet()[rem]]) + Reversed(str) == CharsOf(Rep(58, dv)) + ([Alphabet()[rem]] + Reversed(str));
      bn := dv;
      str := str + [Alphabet()[rem]];
    }
    assert CharsOf(Rep(58, 0)) + Reversed(str) == Reversed(str);
  }

  method EncodeBase58(bytes: Digits) returns (str: string)
    requires InBase(256, bytes)
    ensures str == Encoded(bytes)
  {
    hide Alphabet, Val, SetVch, Rep, Reversed;
    var vchTmp := Reversed(bytes) + [0];
    SetVchPositive(bytes);
    var bn := SetVch(vchTmp);
    str := WriteNumber(bn);
    var p := 0;
    ghost var number := CharsOf(Rep(58, Val(256, bytes)));
    while p < |bytes| && bytes[p] == 0
      invariant p <= |bytes| && forall i :: 0 <= i < p ==> bytes[i] == 0
      invariant Reversed(str) == CharsOf(Zeros(p)) + number
    {
      ReversedSnoc(str, Alphabet()[0]);
      assert CharsOf(Zeros(p + 1)) == [Alphabet()[0]] + CharsOf(Zeros(p));
      str := str + [Alphabet()[0]];
      p := p + 1;
    }
    ZerosUnique(bytes, p);
    assert Encoded(bytes) == CharsOf(Zeros(p)) + number;
    str := Reversed(str);
  }

  // ---------------------------------------------------------------- decoding

  /** A string as C sees it. */
  function CString(s: string): (c: string)
    ensures c <= s && (|c| < |s| ==> s[|c|] == '\0') && forall i :: 0 <= i < |c| ==> c[i] != '\0'
  {
    if s == "" || s[0] == '\0' then "" else [s[0]] + CString(s[1..])
  }

  predicate AllSpace(s: string) {
    forall i :: 0 <= i < |s| ==> IsSpace(s[i])
  }

  function SkipSpaces(s: string): (r: string)
    ensures |r| <= |s| && (r != "" ==> !IsSpace(r[0]))
  {
    if s != "" && IsSpace(s[0]) then
      var r := SkipSpaces(s[1..]);
      r
    else s
  }

  lemma {:induction false} SkippedSpaces(s: string) returns (a: string)
    ensures AllSpace(a) && s == a + SkipSpaces(s)
  {
    if s != "" && IsSpace(s[0]) {
      a := SkippedSpaces(s[1..]);
      SkipOne(s);
      a := [s[0]] + a;
    } else {
      a := "";
    }
  }

  /** How many characters of the alphabet a string starts with. */
  function BodyLength(s: string): (n: nat)
    ensures n <= |s| && InAlphabet(s[..n]) && (n < |s| ==> IndexOf(s[n]) == -1)
  {
    if s == "" || IndexOf(s[0]) == -1 then 0 else
      var n := 1 + BodyLength(s[1..]);
      assert s[..n] == [s[0]] + s[1..][..n - 1];
      n
  }

  /** Optional white space, characters of the alphabet, optional white space: the bytes they stand for. */
  function Decoded(str: string): Utxo.Option<Digits> {
    var s := SkipSpaces(CString(str));
    var n := BodyLength(s);
    if SkipSpaces(s[n..]) == "" then Utxo.Some(Convert(58, 256, DigitsOf(s[..n]))) else Utxo.None
  }

  lemma {:induction false} SkipSpacesOver(a: string, t: string)
    requires AllSpace(a)
    ensures SkipSpaces(a + t) == SkipSpaces(t)
  {
    if a == "" {
      assert a + t == t;
    } else {
      SkipSpacesOver(a[1..], t);
      SkipOne(a + t);
      assert (a + t)[1..] == a[1..] + t;
    }
  }

  lemma SkipOne(s: string)
    requires s != ""
    ensures SkipSpaces(s) == if IsSpace(s[0]) then SkipSpaces(s[1..]) else s
  {
  }

  lemma BodyLengthUnique(s: string, n: nat)
    requires n <= |s| && InAlphabet(s[..n]) && (n < |s| ==> IndexOf(s[n]) == -1)
    ensures BodyLength(s) == n
  {
    var m := BodyLength(s);
    InAlphabetAt(s, n);
    InAlphabetAt(s, m);
  }

  lemma InAlphabetAt(s: string, n: nat)
    requires n <= |s| && InAlphabet(s[..n])
    ensures forall i :: 0 <= i < n ==> IndexOf(s[i]) >= 0
  {
  }

  lemma AlphabetHasNoSpace(s: string)
    requires InAlphabet(s)
    ensures forall i :: 0 <= i < |s| ==> !IsSpace(s[i])
  {
  }

  lemma SpaceHasNoIndex(c: char)
    requires IsSpace(c)
    ensures IndexOf(c) == -1
  {
  }

  /** White space, e, white space. */
  predicate Framed(c: string, a: string, e: string, b: string) {
    AllSpace(a) && AllSpace(b) && c == a + (e + b)
  }

  /** Decoding accepts a string just when it is the encoding of some bytes between two stretches of white space, and then
      gives exactly these bytes. In particular each of encoding and decoding undoes the other. */
  lemma DecodesEncodings(str: string, bytes: Digits)
    requires InBase(256, bytes)
    ensures Decoded(str) == Utxo.Some(bytes) <==> exists a, b :: Framed(CString(str), a, Encoded(bytes), b)
  {
    hide Decoded, Framed, Encoded, CString;
    if Decoded(str) == Utxo.Some(bytes) {
      var a, b := DecodedIsEncoding(str, bytes);
    }
    forall a, b | Framed(CString(str), a, Encoded(bytes), b)
      ensures Decoded(str) == Utxo.Some(bytes)
    {
      EncodingIsDecoded(str, bytes, a, b);
    }
  }

  lemma DecodedIsEncoding(str: string, bytes: Digits) returns (a: string, b: string)
    requires Decoded(str) == Utxo.Some(bytes)
    ensures Framed(CString(str), a, Encoded(bytes), b)
  {
    hide Alphabet, IndexOf, Convert, CString, SkipSpaces, BodyLength, CharsOf, DigitsOf, InAlphabet, InBase;
    var s := SkipSpaces(CString(str));
    var n := BodyLength(s);
    a := SkippedSpaces(CString(str));
    b := SkippedSpaces(s[n..]);
    assert b + "" == b;
    ConvertInverts(58, 256, DigitsOf(s[..n]));
    DigitsAreChars(s[..n]);
    assert s == s[..n] + s[n..];
  }

  lemma EncodingIsDecoded(str: string, bytes: Digits, a: string, b: string)
    requires InBase(256, bytes) && Framed(CString(str), a, Encoded(bytes), b)
    ensures Decoded(str) == Utxo.Some(bytes)
  {
    hide Alphabet, IndexOf, Convert, CString, SkipSpaces, BodyLength, CharsOf, DigitsOf, InAlphabet, InBase;
    var e := Encoded(bytes);
    CharsAreDigits(Convert(256, 58, bytes));
    SkipSpacesOver(a, e + b);
    BodyAndTail(e, b);
    ConvertInverts(256, 58, bytes);
  }

  lemma BodyAndTail(e: string, b: string)
    requires InAlphabet(e) && AllSpace(b)
    ensures var s := SkipSpaces(e + b); BodyLength(s) == |e| && s[..|e|] == e && SkipSpaces(s[|e|..]) == ""
  {
    hide Alphabet, IndexOf;
    AlphabetHasNoSpace(e);
    SkipSpacesOver(b, "");
    assert b + "" == b;
    if e == "" {
      assert e + b == b;
      BodyLengthUnique("", 0);
    } else {
      SkipOne(e + b);
      if b != "" {
        SpaceHasNoIndex(b[0]);
      }
      assert (e + b)[..|e|] == e && (e + b)[|e|..] == b;
      BodyLengthUnique(e + b, |e|);
    }
  }

  // ---------------------------------------------------------------- the decoder

  /** The character at a place of a C string, the terminator included. */
  function At(s: string, i: nat): char
    requires i <= |s|
  {
    if i < |s| then s[i] else '\0'
  }

  lemma AtIsCString(str: string, q: nat)
    requires q <= |CString(str)|
    ensures At(str, q) == if q < |CString(str)| then CString(str)[q] else '\0'
    ensures At(str, q) == '\0' <==> q == |CString(str)|
  {
  }

  method SkipWhile(str: string, start: nat) returns (q: nat)
    requires start <= |CString(str)|
    ensures start <= q <= |CString(str)| && CString(str)[q..] == SkipSpaces(CString(str)[start..])
  {
    hide CString, SkipSpaces, At;
    ghost var c := CString(str);
    q := start;
    AtIsCString(str, q);
    while IsSpace(At(str, q))
      invariant start <= q <= |c| && SkipSpaces(c[q..]) == SkipSpaces(c[start..])
      invariant At(str, q) == (if q < |c| then c[q] else '\0')
      decreases |c| - q
    {
      SkipOne(c[q..]);
      assert c[q..][1..] == c[q + 1..];
      q := q + 1;
      AtIsCString(str, q);
    }
    if q < |c| {
      SkipOne(c[q..]);
    } else {
      SkipNothing();
    }
  }

  lemma SkipNothing()
    ensures SkipSpaces("") == ""
  {
  }

  lemma NextChar(s: string, k: nat)
    requires k < |s| && InAlphabet(s[..k]) && IndexOf(s[k]) >= 0
    ensures InAlphabet(s[..k + 1]) && Val(58, DigitsOf(s[..k + 1])) == Val(58, DigitsOf(s[..k])) * 58 + IndexOf(s[k])
  {
    hide IndexOf, Val;
    assert s[..k + 1] == s[..k] + [s[k]];
    assert DigitsOf(s[..k + 1]) == DigitsOf(s[..k]) + [IndexOf(s[k])];
    ValAppend(58, DigitsOf(s[..k]), IndexOf(s[k]));
  }

  /** The sign byte that getvch adds is just the one that is trimmed off again. */
  lemma TrimmedSign(n: nat)
    ensures var vch := GetVch(n);
            Reversed(if |vch| >= 2 && vch[|vch| - 1] == 0 && vch[|vch| - 2] >= 0x80 then vch[..|vch| - 1] else vch) == Rep(256, n)
  {
    hide Rep;
    var le := Reversed(Rep(256, n));
    assert le != [] ==> le[|le| - 1] != 0;
    assert Reversed(le) == Rep(256, n);
    assert (le + [0])[..|le|] == le;
  }

  /** How many times a C string has the first character of the alphabet at the front. */
  method CountOnes(str: string, start: nat) returns (z: nat)
    requires start <= |CString(str)|
    ensures var s := CString(str)[start..]; z == LeadingZeros(DigitsOf(s[..BodyLength(s)]))
  {
    hide CString, At, IndexOf, BodyLength, LeadingZeros;
    ghost var c := CString(str);
    ghost var s := c[start..];
    ghost var n := BodyLength(s);
    ghost var ds := DigitsOf(s[..n]);
    OneIsZero();
    z := 0;
    AtIsCString(str, start);
    while At(str, start + z) == '1'
      invariant start + z <= |c| && z <= n && forall i :: 0 <= i < z ==> ds[i] == 0
      invariant At(str, start + z) == (if start + z < |c| then c[start + z] else '\0')
      decreases |c| - z
    {
      assert s[z] == '1';
      assert s[z] == s[..n][z];
      assert ds[z] == 0;
      z := z + 1;
      AtIsCString(str, start + z);
    }
    assert z < n ==> s[..n][z] == c[start + z];
    ZerosUnique(ds, z);
  }

  lemma OneIsZero()
    ensures forall c :: IndexOf(c) == 0 <==> c == '1'
  {
    forall c ensures IndexOf(c) == 0 <==> c == '1' {
      IndexOfChar(0);
    }
  }

  /** Reads characters of the alphabet into a number. */
  method ReadBody(str: string, psz: nat) returns (p: nat, bn: nat)
    requires psz <= |CString(str)|
    ensures var s := CString(str)[psz..];
            p == psz + BodyLength(s) && bn == Val(58, DigitsOf(s[..BodyLength(s)]))
  {
    hide Alphabet, IndexOf, Rep, CString, BodyLength, SkipSpaces, At;
    ghost var c := CString(str);
    ghost var s := c[psz..];
    p, bn := psz, 0;
    assert s[..0] == "" && DigitsOf("") == [];
    AtIsCString(str, p);
    while At(str, p) != '\0' && IndexOf(At(str, p)) >= 0
      invariant psz <= p <= |c| && InAlphabet(s[..p - psz])
      invariant bn == Val(58, DigitsOf(s[..p - psz]))
      invariant At(str, p) == (if p < |c| then c[p] else '\0') && (At(str, p) == '\0' <==> p == |c|)
      decreases |c| - p
    {
      NextChar(s, p - psz);
      bn := bn * 58 + IndexOf(At(str, p));
      p := p + 1;
      AtIsCString(str, p);
    }
    BodyLengthUnique(s, p - psz);
  }

  method DecodeBase58(str: string) returns (ok: bool, vchRet: Digits)
    ensures ok <==> Decoded(str).Some?
    ensures ok ==> Decoded(str).value == vchRet
  {
    hide Alphabet, IndexOf, Rep, CString, BodyLength, SkipSpaces, At, GetVch, LeadingZeros, Val;
    ok, vchRet := false, [];
    var psz := SkipWhile(str, 0);
    ghost var c := CString(str);
    var p, bn := ReadBody(str, psz);
    AtIsCString(str, p);
    SkipNothing();
    assert c[psz..][p - psz..] == c[p..];
    if At(str, p) != '\0' {
      var q := SkipWhile(str, p);
      AtIsCString(str, q);
      if At(str, q) != '\0' {
        return;
      }
    }
    var vchTmp := GetVch(bn);
    TrimmedSign(bn);
    if |vchTmp| >= 2 && vchTmp[|vchTmp| - 1] == 0 && vchTmp[|vchTmp| - 2] >= 0x80 {
      vchTmp := vchTmp[..|vchTmp| - 1];
    }
    var nLeadingZeros := CountOnes(str, psz);
    return true, Zeros(nLeadingZeros) + Reversed(vchTmp);
  }
}
