/** The ULID time and random encoders, against the ULID specification's encoding and sorting rules. */
module Ulid {
  import opened Common
  import opened Radix

  const TIME_RANGE: nat := 0x1_0000_0000_0000

  /** Crockford base32: 0123456789ABCDEFGHJKMNPQRSTVWXYZ. */
  function Symbol(d: nat): char
    requires d < 32
  {
    if d < 10 then '0' + d as char
    else if d < 18 then 'A' + (d - 10) as char
    else if d < 20 then 'J' + (d - 18) as char
    else if d < 22 then 'M' + (d - 20) as char
    else if d < 27 then 'P' + (d - 22) as char
    else 'V' + (d - 27) as char
  }

  lemma SymbolsAreCrockfords(d: nat)
    requires d < 32
    ensures "0123456789ABCDEFGHJKMNPQRSTVWXYZ"[d] == Symbol(d)
  {
  }

  /** The value of a symbol, as a reader of the format takes it. */
  function SymbolValue(c: char): (d: nat)
    ensures d < 32
  {
    if '0' <= c <= '9' then (c - '0') as nat
    else if 'A' <= c <= 'H' then (c - 'A') as nat + 10
    else if 'J' <= c <= 'K' then (c - 'J') as nat + 18
    else if 'M' <= c <= 'N' then (c - 'M') as nat + 20
    else if 'P' <= c <= 'T' then (c - 'P') as nat + 22
    else if 'V' <= c <= 'Z' then (c - 'V') as nat + 27
    else 0
  }

  lemma SymbolsKeepOrderAndValue(d: nat, e: nat)
    requires d < 32 && e < 32
    ensures SymbolValue(Symbol(d)) == d
    ensures d < e ==> Symbol(d) < Symbol(e)
  {
  }

  function Values(s: string): (ds: seq<nat>)
    ensures |ds| == |s| && DigitsBelow(32, ds)
    ensures forall i :: 0 <= i < |s| ==> ds[i] == SymbolValue(s[i])
  {
    seq(|s|, i requires 0 <= i < |s| => SymbolValue(s[i]))
  }

  function Symbols(ds: seq<nat>): (s: string)
    requires DigitsBelow(32, ds)
    ensures |s| == |ds| && forall i :: 0 <= i < |s| ==> s[i] == Symbol(ds[i])
  {
    seq(|ds|, i requires 0 <= i < |ds| => Symbol(ds[i]))
  }

  lemma ValuesOfSymbols(ds: seq<nat>)
    requires DigitsBelow(32, ds)
    ensures Values(Symbols(ds)) == ds
  {
    forall i | 0 <= i < |ds|
      ensures Values(Symbols(ds))[i] == ds[i]
    {
      SymbolsKeepOrderAndValue(ds[i], ds[i]);
    }
  }

  // ---------------------------------------------------------------- time

  function TimeDigit(ms: nat, i: nat): (d: nat)
    requires i < 10
    ensures d < 32
  {
    Shr(ms % TIME_RANGE, 45 - i * 5) % 32
  }

  function TimeDigits(ms: nat): (ds: seq<nat>)
    ensures |ds| == 10 && DigitsBelow(32, ds)
  {
    seq(10, i requires 0 <= i < 10 => TimeDigit(ms, i))
  }

  method EncodeTime(prefix: string, ms: nat) returns (s: string)
    ensures s == prefix + Symbols(TimeDigits(ms))
  {
    s := prefix;
    var v := ms % TIME_RANGE;
    ghost var all := Symbols(TimeDigits(ms));
    for i := 0 to 10
      invariant s == prefix + all[..i]
    {
      var shift := 45 - i * 5;
      assert all[i] == Symbol(TimeDigit(ms, i));
      s := s + [Symbol(Shr(v, shift) % 32)];
    }
  }

  lemma {:induction false} TimeDigitsSoFar(ms: nat, n: nat)
    requires n <= 10
    ensures Number(32, TimeDigits(ms)[..n]) == Shr(ms % TIME_RANGE, 50 - n * 5)
  {
    var v := ms % TIME_RANGE;
    if n == 0 {
      TimeRangeIsPow2();
      ShrVanishes(v, 50);
    } else {
      TimeDigitsSoFar(ms, n - 1);
      ShrFive(v, 50 - n * 5);
      var ds := TimeDigits(ms)[..n];
      assert ds[..n - 1] == TimeDigits(ms)[..n - 1];
    }
  }

  lemma TimeNumber(ms: nat)
    ensures Number(32, TimeDigits(ms)) == ms % TIME_RANGE
  {
    TimeDigitsSoFar(ms, |TimeDigits(ms)|);
    assert TimeDigits(ms)[..10] == TimeDigits(ms);
  }

  lemma TimeRangeIsPow2()
    ensures TIME_RANGE <= Pow2(50)
  {
    assert Pow2(10) == 1024;
    Doubling(10);
    Doubling(20);
    Doubling(30);
    Doubling(40);
  }

  lemma Doubling(k: nat)
    ensures Pow2(k + 10) == 1024 * Pow2(k)
  {
    assert Pow2(k + 10) == 2 * Pow2(k + 9) && Pow2(k + 9) == 2 * Pow2(k + 8) && Pow2(k + 8) == 2 * Pow2(k + 7);
    assert Pow2(k + 7) == 2 * Pow2(k + 6) && Pow2(k + 6) == 2 * Pow2(k + 5) && Pow2(k + 5) == 2 * Pow2(k + 4);
    assert Pow2(k + 4) == 2 * Pow2(k + 3) && Pow2(k + 3) == 2 * Pow2(k + 2) && Pow2(k + 2) == 2 * Pow2(k + 1);
  }

  /** The ten time characters read back as the 48 low bits of the millisecond clock. */
  lemma TimeRoundTrip(ms: nat)
    ensures Number(32, Values(Symbols(TimeDigits(ms)))) == ms % TIME_RANGE
  {
    ValuesOfSymbols(TimeDigits(ms));
    TimeNumber(ms);
  }

  // ---------------------------------------------------------------- sorting

  ghost predicate LexLess(s: string, t: string) {
    exists k :: 0 <= k < |s| && k < |t| && s[..k] == t[..k] && s[k] < t[k]
  }

  /** Of two ULIDs made in different milliseconds the earlier one sorts first, whatever follows the time. */
  lemma UlidsSortByTime(ms1: nat, ms2: nat, random1: string, random2: string)
    requires ms1 < ms2 < TIME_RANGE
    ensures LexLess(Symbols(TimeDigits(ms1)) + random1, Symbols(TimeDigits(ms2)) + random2)
  {
    var d, e := TimeDigits(ms1), TimeDigits(ms2);
    TimesInOrder(ms1, ms2);
    var k := FirstDifference(d, e);
    SymbolsSort(d, e, k, random1, random2);
  }

  lemma TimesInOrder(ms1: nat, ms2: nat)
    requires ms1 < ms2 < TIME_RANGE
    ensures Number(32, TimeDigits(ms1)) < Number(32, TimeDigits(ms2))
  {
    TimeNumber(ms1);
    TimeNumber(ms2);
  }

  lemma SymbolsSort(d: seq<nat>, e: seq<nat>, k: nat, random1: string, random2: string)
    requires DigitsBelow(32, d) && DigitsBelow(32, e)
    requires k < |d| && k < |e| && d[..k] == e[..k] && d[k] < e[k]
    ensures LexLess(Symbols(d) + random1, Symbols(e) + random2)
  {
    SymbolsKeepOrderAndValue(d[k], e[k]);
    var s, t := Symbols(d) + random1, Symbols(e) + random2;
    forall i | 0 <= i < k
      ensures s[i] == t[i]
    {
      assert d[i] == d[..k][i] == e[..k][i] == e[i];
    }
    assert s[..k] == t[..k];
  }

  // ---------------------------------------------------------------- randomness

  /** Two bytes as a 16-bit word. */
  function Window(high: byte, low: byte): nat {
    high as int * 256 + low as int
  }

  /** The i-th group of five bits, cut out of a 16-bit window as encode_random does. */
  function RandomDigit(r: seq<byte>, i: nat): (d: nat)
    requires |r| == 10 && i < 16
    ensures d < 32
  {
    var byteOff, bitPos := i * 5 / 8, i * 5 % 8;
    var word := Window(r[byteOff], if byteOff + 1 < 10 then r[byteOff + 1] else 0);
    Shr(word, 11 - bitPos) % 32
  }

  function RandomDigits(r: seq<byte>): (ds: seq<nat>)
    requires |r| == 10
    ensures |ds| == 16 && DigitsBelow(32, ds) && forall i :: 0 <= i < 16 ==> ds[i] == RandomDigit(r, i)
  {
    seq(16, i requires 0 <= i < 16 => RandomDigit(r, i))
  }

  method EncodeRandom(prefix: string, r: array<byte>) returns (s: string)
    requires r.Length == 10
    ensures s == prefix + Symbols(RandomDigits(r[..]))
  {
    s := prefix;
    ghost var all := Symbols(RandomDigits(r[..]));
    for i := 0 to 16
      invariant s == prefix + all[..i]
    {
      var bitOff := i * 5;
      var byteOff, bitPos := bitOff / 8, bitOff % 8;
      var word := Window(r[byteOff], if byteOff + 1 < 10 then r[byteOff + 1] else 0);
      assert all[i] == Symbol(RandomDigit(r[..], i));
      s := s + [Symbol(Shr(word, 11 - bitPos) % 32)];
    }
  }

  /** Eight 5-bit groups carry five bytes. */
  function FiveBytes(d: seq<nat>): seq<nat>
    requires |d| == 8
  {
    [d[0] * 8 + d[1] / 4,
     d[1] % 4 * 64 + d[2] * 2 + d[3] / 16,
     d[3] % 16 * 16 + d[4] / 2,
     d[4] % 2 * 128 + d[5] * 4 + d[6] / 8,
     d[6] % 8 * 32 + d[7]]
  }

  lemma Shifts(w: nat)
    ensures Shr(w, 4) == w / 16 && Shr(w, 5) == w / 32 && Shr(w, 6) == w / 64 && Shr(w, 7) == w / 128
    ensures Shr(w, 8) == w / 256 && Shr(w, 9) == w / 512 && Shr(w, 10) == w / 1024 && Shr(w, 11) == w / 2048
  {
    ShrStep(w, 0);
    ShrStep(w, 1);
    ShrStep(w, 2);
    ShrStep(w, 3);
    ShrStep(w, 4);
    ShrStep(w, 5);
    ShrStep(w, 6);
    ShrStep(w, 7);
    ShrStep(w, 8);
    ShrStep(w, 9);
    ShrStep(w, 10);
  }

  /** The five bits each shift leaves, in terms of the two bytes. */
  lemma HighBits(a: byte, b: byte)
    ensures Window(a, b) / 2048 % 32 == a / 8 && Window(a, b) / 512 % 32 == a / 2 % 32
    ensures Window(a, b) / 1024 % 32 == a / 4 % 32 && Window(a, b) / 256 % 32 == a % 32
  {
    var w := Window(a, b);
    assert w / 2048 == a / 8 by { assert w == 2048 * (a / 8) + (256 * (a % 8) + b); }
    assert w / 512 == a / 2 by { assert w == 512 * (a / 2) + (256 * (a % 2) + b); }
    assert w / 1024 == a / 4 by { assert w == 1024 * (a / 4) + (256 * (a % 4) + b); }
    assert w / 256 == a;
  }

  lemma Mod32(q: nat, r: nat)
    requires r < 32
    ensures (32 * q + r) % 32 == r
  {
  }

  lemma ThreeAndTwoBits(a: byte, b: byte)
    ensures Window(a, b) / 64 % 32 == a % 8 * 4 + b / 64
  {
    var q := 32 * (a / 8) + (a % 8 * 4 + b / 64);
    assert Window(a, b) == 64 * q + b % 64;
    assert Window(a, b) / 64 == q;
    Mod32(a / 8, a % 8 * 4 + b / 64);
  }

  lemma OneAndFourBits(a: byte, b: byte)
    ensures Window(a, b) / 16 % 32 == a % 2 * 16 + b / 16
  {
    var q := 32 * (a / 2) + (a % 2 * 16 + b / 16);
    assert Window(a, b) == 16 * q + b % 16;
    assert Window(a, b) / 16 == q;
    Mod32(a / 2, a % 2 * 16 + b / 16);
  }

  lemma FourAndOneBits(a: byte, b: byte)
    ensures Window(a, b) / 128 % 32 == a % 16 * 2 + b / 128
  {
    var q := 32 * (a / 16) + (a % 16 * 2 + b / 128);
    assert Window(a, b) == 128 * q + b % 128;
    assert Window(a, b) / 128 == q;
    Mod32(a / 16, a % 16 * 2 + b / 128);
  }

  lemma TwoAndThreeBits(a: byte, b: byte)
    ensures Window(a, b) / 32 % 32 == a % 4 * 8 + b / 32
  {
    var q := 32 * (a / 4) + (a % 4 * 8 + b / 32);
    assert Window(a, b) == 32 * q + b % 32;
    assert Window(a, b) / 32 == q;
    Mod32(a / 4, a % 4 * 8 + b / 32);
  }

  /** The eight windows over five bytes a..e, the last one reaching into a byte f. */
  function EightWindows(a: byte, b: byte, c: byte, d: byte, e: byte, f: byte): seq<nat> {
    [Window(a, b) / 2048 % 32, Window(a, b) / 64 % 32, Window(b, c) / 512 % 32, Window(b, c) / 16 % 32,
     Window(c, d) / 128 % 32, Window(d, e) / 1024 % 32, Window(d, e) / 32 % 32, Window(e, f) / 256 % 32]
  }

  lemma Reassemble8(a: byte, t: nat)
    requires t < 4
    ensures a / 8 * 8 + (a % 8 * 4 + t) / 4 == a && (a % 8 * 4 + t) % 4 == t
  {
    assert (a % 8 * 4 + t) / 4 == a % 8;
  }

  lemma Reassemble2(a: byte, t: nat)
    requires t < 16
    ensures a / 64 * 64 + a / 2 % 32 * 2 + (a % 2 * 16 + t) / 16 == a && (a % 2 * 16 + t) % 16 == t
  {
    assert (a % 2 * 16 + t) / 16 == a % 2;
    assert a / 2 == 32 * (a / 64) + a / 2 % 32;
  }

  lemma Reassemble16(a: byte, t: nat)
    requires t < 2
    ensures a / 16 * 16 + (a % 16 * 2 + t) / 2 == a && (a % 16 * 2 + t) % 2 == t
  {
    assert (a % 16 * 2 + t) / 2 == a % 16;
  }

  lemma Reassemble4(a: byte, t: nat)
    requires t < 8
    ensures a / 128 * 128 + a / 4 % 32 * 4 + (a % 4 * 8 + t) / 8 == a && (a % 4 * 8 + t) % 8 == t
  {
    assert (a % 4 * 8 + t) / 8 == a % 4;
    assert a / 4 == 32 * (a / 128) + a / 4 % 32;
  }

  lemma WindowsOverFiveBytes(a: byte, b: byte, c: byte, d: byte, e: byte, f: byte)
    ensures FiveBytes(EightWindows(a, b, c, d, e, f)) == [a, b, c, d, e]
  {
    var ws := EightWindows(a, b, c, d, e, f);
    assert ws[0] == a / 8 && ws[1] == a % 8 * 4 + b / 64 by {
      HighBits(a, b);
      ThreeAndTwoBits(a, b);
    }
    assert ws[2] == b / 2 % 32 && ws[3] == b % 2 * 16 + c / 16 by {
      HighBits(b, c);
      OneAndFourBits(b, c);
    }
    assert ws[4] == c % 16 * 2 + d / 128 by { FourAndOneBits(c, d); }
    assert ws[5] == d / 4 % 32 && ws[6] == d % 4 * 8 + e / 32 by {
      HighBits(d, e);
      TwoAndThreeBits(d, e);
    }
    assert ws[7] == e % 32 by { HighBits(e, f); }
    FiveBytesOf(ws, a, b, c, d, e);
  }

  // Each of five bytes from the windows it reaches into.

  lemma Byte1(a: byte, b: byte)
    ensures a / 8 * 8 + (a % 8 * 4 + b / 64) / 4 == a
  {
    Reassemble8(a, b / 64);
  }

  lemma Byte2(a: byte, b: byte, c: byte)
    ensures (a % 8 * 4 + b / 64) % 4 * 64 + b / 2 % 32 * 2 + (b % 2 * 16 + c / 16) / 16 == b
  {
    Reassemble8(a, b / 64);
    Reassemble2(b, c / 16);
  }

  lemma Byte3(b: byte, c: byte, d: byte)
    ensures (b % 2 * 16 + c / 16) % 16 * 16 + (c % 16 * 2 + d / 128) / 2 == c
  {
    Reassemble2(b, c / 16);
    Reassemble16(c, d / 128);
  }

  lemma Byte4(c: byte, d: byte, e: byte)
    ensures (c % 16 * 2 + d / 128) % 2 * 128 + d / 4 % 32 * 4 + (d % 4 * 8 + e / 32) / 8 == d
  {
    Reassemble16(c, d / 128);
    Reassemble4(d, e / 32);
  }

  lemma Byte5(d: byte, e: byte)
    ensures (d % 4 * 8 + e / 32) % 8 * 32 + e % 32 == e
  {
    Reassemble4(d, e / 32);
  }

  lemma FiveBytesOf(ws: seq<nat>, a: byte, b: byte, c: byte, d: byte, e: byte)
    requires |ws| == 8
    requires ws[0] == a / 8 && ws[1] == a % 8 * 4 + b / 64
    requires ws[2] == b / 2 % 32 && ws[3] == b % 2 * 16 + c / 16
    requires ws[4] == c % 16 * 2 + d / 128
    requires ws[5] == d / 4 % 32 && ws[6] == d % 4 * 8 + e / 32 && ws[7] == e % 32
    ensures FiveBytes(ws) == [a, b, c, d, e]
  {
    Byte1(a, b);
    Byte2(a, b, c);
    Byte3(b, c, d);
    Byte4(c, d, e);
    Byte5(d, e);
  }

  lemma DigitOfWindow(r: seq<byte>, i: nat, byteOff: nat, bitPos: nat)
    requires |r| == 10 && i < 16 && bitPos < 8 && i * 5 == 8 * byteOff + bitPos
    ensures byteOff < 10
    ensures var next: nat := if byteOff + 1 < 10 then r[byteOff + 1] else 0;
      RandomDigit(r, i) == Shr(Window(r[byteOff], next), 11 - bitPos) % 32
  {
    assert i * 5 / 8 == byteOff && i * 5 % 8 == bitPos;
  }

  lemma FrontWindowAt(r: seq<byte>, h: nat, i: nat)
    requires |r| == 10 && h < 2 && i < 4
    ensures var p := 5 * h;
      RandomDigit(r, 8 * h + i) ==
      EightWindows(r[p], r[p + 1], r[p + 2], r[p + 3], r[p + 4], if h == 0 then r[5] else 0)[i]
  {
    var p, k := 5 * h, 8 * h + i;
    if i == 0 {
      Shifts(Window(r[p], r[p + 1]));
      DigitOfWindow(r, k, p, 0);
    } else if i == 1 {
      Shifts(Window(r[p], r[p + 1]));
      DigitOfWindow(r, k, p, 5);
    } else if i == 2 {
      Shifts(Window(r[p + 1], r[p + 2]));
      DigitOfWindow(r, k, p + 1, 2);
    } else {
      Shifts(Window(r[p + 1], r[p + 2]));
      DigitOfWindow(r, k, p + 1, 7);
    }
  }

  lemma BackWindowAt(r: seq<byte>, h: nat, i: nat)
    requires |r| == 10 && h < 2 && 4 <= i < 8
    ensures var p := 5 * h;
      RandomDigit(r, 8 * h + i) ==
      EightWindows(r[p], r[p + 1], r[p + 2], r[p + 3], r[p + 4], if h == 0 then r[5] else 0)[i]
  {
    var p, k := 5 * h, 8 * h + i;
    if i == 4 {
      Shifts(Window(r[p + 2], r[p + 3]));
      DigitOfWindow(r, k, p + 2, 4);
    } else if i == 5 {
      Shifts(Window(r[p + 3], r[p + 4]));
      DigitOfWindow(r, k, p + 3, 1);
    } else if i == 6 {
      Shifts(Window(r[p + 3], r[p + 4]));
      DigitOfWindow(r, k, p + 3, 6);
    } else {
      Shifts(Window(r[p + 4], if h == 0 then r[5] else 0));
      DigitOfWindow(r, k, p + 4, 3);
    }
  }

  lemma HalfDigits(r: seq<byte>, h: nat)
    requires |r| == 10 && h < 2
    ensures var p := 5 * h;
      RandomDigits(r)[8 * h..8 * h + 8] ==
      EightWindows(r[p], r[p + 1], r[p + 2], r[p + 3], r[p + 4], if h == 0 then r[5] else 0)
  {
    var p := 5 * h;
    var ds := RandomDigits(r)[8 * h..8 * h + 8];
    var ws := EightWindows(r[p], r[p + 1], r[p + 2], r[p + 3], r[p + 4], if h == 0 then r[5] else 0);
    forall i | 0 <= i < 8
      ensures ds[i] == ws[i]
    {
      if i < 4 {
        FrontWindowAt(r, h, i);
      } else {
        BackWindowAt(r, h, i);
      }
    }
  }

  lemma RandomHalf(r: seq<byte>, h: nat)
    requires |r| == 10 && h < 2
    ensures FiveBytes(RandomDigits(r)[8 * h..8 * h + 8]) == r[5 * h..5 * h + 5]
  {
    var p := 5 * h;
    HalfDigits(r, h);
    WindowsOverFiveBytes(r[p], r[p + 1], r[p + 2], r[p + 3], r[p + 4], if h == 0 then r[5] else 0);
    assert r[p..p + 5] == [r[p], r[p + 1], r[p + 2], r[p + 3], r[p + 4]];
  }

  /** The sixteen random characters read back as the ten random bytes. */
  lemma RandomRoundTrip(r: seq<byte>)
    requires |r| == 10
    ensures var ds := Values(Symbols(RandomDigits(r)));
      FiveBytes(ds[..8]) + FiveBytes(ds[8..]) == r
  {
    ValuesOfSymbols(RandomDigits(r));
    RandomHalves(r);
  }

  lemma RandomHalves(r: seq<byte>)
    requires |r| == 10
    ensures FiveBytes(RandomDigits(r)[..8]) + FiveBytes(RandomDigits(r)[8..]) == r
  {
    FirstHalf(r);
    SecondHalf(r);
    assert r[..5] + r[5..] == r;
  }

  lemma FirstHalf(r: seq<byte>)
    requires |r| == 10
    ensures FiveBytes(RandomDigits(r)[..8]) == r[..5]
  {
    RandomHalf(r, 0);
    assert RandomDigits(r)[0..8] == RandomDigits(r)[..8] && r[0..5] == r[..5];
  }

  lemma SecondHalf(r: seq<byte>)
    requires |r| == 10
    ensures FiveBytes(RandomDigits(r)[8..]) == r[5..]
  {
    RandomHalf(r, 1);
    assert RandomDigits(r)[8..16] == RandomDigits(r)[8..] && r[5..10] == r[5..];
  }

  /** The time and the random bytes a reader takes from a ULID. */
  function ReadUlid(ulid: string): (nat, seq<byte>)
    requires |ulid| == 26
  {
    var ds := Values(ulid[10..]);
    (Number(32, Values(ulid[..10])), FiveBytes(ds[..8]) + FiveBytes(ds[8..]))
  }

  /** generate(): 26 characters from which time and randomness read back. */
  method Generate(ms: nat, r: array<byte>) returns (ulid: string)
    requires r.Length == 10
    ensures ulid == Symbols(TimeDigits(ms)) + Symbols(RandomDigits(r[..]))
    ensures |ulid| == 26 && ReadUlid(ulid) == (ms % TIME_RANGE, r[..])
  {
    ulid := EncodeTime("", ms);
    ulid := EncodeRandom(ulid, r);
    TimeRoundTrip(ms);
    RandomRoundTrip(r[..]);
    assert ulid[..10] == Symbols(TimeDigits(ms)) && ulid[10..] == Symbols(RandomDigits(r[..]));
  }
}
