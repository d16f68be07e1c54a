/** The firmware upload's base64 loop with its 32-bit accumulator, against section 4 of RFC 4648. */
module Base64 {
  import opened Common
  import opened Radix

  /** The alphabet, by index. */
  function Letter(d: nat): char
    requires d < 64
  {
    if d < 26 then 'A' + d as char
    else if d < 52 then 'a' + (d - 26) as char
    else if d < 62 then '0' + (d - 52) as char
    else if d == 62 then '+' else '/'
  }

  /** strchr on the alphabet: a NUL character finds the terminator, at index 64. */
  function Sextet(c: char): Option<nat> {
    if 'A' <= c <= 'Z' then Some((c - 'A') as nat)
    else if 'a' <= c <= 'z' then Some((c - 'a') as nat + 26)
    else if '0' <= c <= '9' then Some((c - '0') as nat + 52)
    else if c == '+' then Some(62)
    else if c == '/' then Some(63)
    else if c == '\0' then Some(64)
    else None
  }

  const UPPER: string := "ABCDEFGHIJKLMNOPQRSTUVWXYZ"
  const LOWER: string := "abcdefghijklmnopqrstuvwxyz"
  const ALPHABET: string := UPPER + LOWER + "0123456789+/"

  lemma LettersAreTheAlphabet(d: nat)
    requires d < 64
    ensures ALPHABET[d] == Letter(d)
  {
    if d < 26 {
      assert ALPHABET[d] == UPPER[d];
    } else if d < 52 {
      assert ALPHABET[d] == LOWER[d - 26];
    } else {
      assert ALPHABET[d] == "0123456789+/"[d - 52];
    }
  }

  /** NUL alone matches behind the last letter, where the terminator stands. */
  lemma TerminatorMatchesNul(c: char)
    ensures Sextet(c) == Some(|ALPHABET|) <==> c == '\0'
  {
  }

  lemma SextetOfLetter(d: nat)
    requires d < 64
    ensures Sextet(Letter(d)) == Some(d) && Letter(d) != '='
  {
  }

  /** The loop's variables. */
  datatype Decoder = Decoder(val: nat, valb: int, decoded: seq<byte>)

  const START := Decoder(0, -8, [])

  function Feed(s: Decoder, d: nat): Decoder {
    var val := (s.val * 64 + d) % WORD;
    var valb := s.valb + 6;
    if valb >= 0
    then Decoder(val, valb - 8, s.decoded + [(val / Pow2(valb)) % 256])
    else Decoder(val, valb, s.decoded)
  }

  function Run(s: Decoder, data: string): Decoder
    decreases |data|
  {
    if data == [] || data[0] == '=' then s
    else if Sextet(data[0]).None? then Run(s, data[1..])
    else Run(Feed(s, Sextet(data[0]).value), data[1..])
  }

  method Decode(data: string) returns (decoded: seq<byte>)
    ensures decoded == Run(START, data).decoded
  {
    decoded := [];
    var val: nat, valb := 0, -8;
    var i := 0;
    while i < |data| && data[i] != '='
      invariant 0 <= i <= |data|
      invariant Run(Decoder(val, valb, decoded), data[i..]) == Run(START, data)
    {
      assert data[i..][0] == data[i] && data[i..][1..] == data[i + 1..];
      var p := Sextet(data[i]);
      if p.Some? {
        val := (val * 64 + p.value) % WORD;
        valb := valb + 6;
        if valb >= 0 {
          decoded := decoded + [(val / Pow2(valb)) % 256];
          valb := valb - 8;
        }
      }
      i := i + 1;
    }
  }

  // ---------------------------------------------------------------- what the loop computes

  /** The sextets the loop consumes: alphabet characters up to the first '='. */
  function Sextets(data: string): (ds: seq<nat>)
    ensures '\0' !in data ==> DigitsBelow(64, ds)
  {
    if data == [] || data[0] == '=' then []
    else if Sextet(data[0]).None? then Sextets(data[1..])
    else [Sextet(data[0]).value] + Sextets(data[1..])
  }

  function FeedAll(s: Decoder, ds: seq<nat>): Decoder {
    if ds == [] then s else Feed(FeedAll(s, ds[..|ds| - 1]), ds[|ds| - 1])
  }

  lemma {:induction false} FeedAllFirst(s: Decoder, d: nat, ds: seq<nat>)
    ensures FeedAll(s, [d] + ds) == FeedAll(Feed(s, d), ds)
  {
    if ds == [] {
      assert ([d] + ds)[..0] == [];
    } else {
      assert ([d] + ds)[..|ds|] == [d] + ds[..|ds| - 1];
      FeedAllFirst(s, d, ds[..|ds| - 1]);
    }
  }

  lemma {:induction false} RunFeedsSextets(s: Decoder, data: string)
    ensures Run(s, data) == FeedAll(s, Sextets(data))
    decreases |data|
  {
    if data != [] && data[0] != '=' {
      if Sextet(data[0]).None? {
        RunFeedsSextets(s, data[1..]);
      } else {
        var d := Sextet(data[0]).value;
        RunFeedsSextets(Feed(s, d), data[1..]);
        FeedAllFirst(s, d, Sextets(data[1..]));
      }
    }
  }

  function Bytes(bs: seq<byte>): (r: seq<nat>)
    ensures |r| == |bs| && forall i :: 0 <= i < |r| ==> r[i] == bs[i]
    ensures DigitsBelow(256, r)
  {
    seq(|bs|, i requires 0 <= i < |bs| => bs[i])
  }

  /**
    The low valb + 8 bits of the word are the undelivered bits of the unbounded accumulator and
    the delivered bytes are all the bits above them, so the wraparound never shows.
   */
  ghost predicate InStep(s: Decoder, n: nat, acc: nat) {
    && s.valb in {-8, -2, -4, -6}
    && s.val == acc % WORD
    && 6 * n == 8 * |s.decoded| + s.valb + 8
    && Number(256, Bytes(s.decoded)) == acc / Pow2(s.valb + 8)
  }

  lemma Deliver(out: seq<byte>, b: byte)
    ensures Number(256, Bytes(out + [b])) == Number(256, Bytes(out)) * 256 + b
  {
    var bs := Bytes(out + [b]);
    assert bs[..|out|] == Bytes(out);
  }

  lemma Mod256(v: int, q: int)
    ensures (v + 256 * q) % 256 == v % 256
  {
  }

  lemma Split16(q: int, r: nat)
    requires r < 16
    ensures (16 * q + r) / 16 == q && (16 * q + r) % 16 == r
  {
  }

  lemma Split4(q: int, r: nat)
    requires r < 4
    ensures (4 * q + r) / 4 == q && (4 * q + r) % 4 == r
  {
  }

  lemma Div16(v: int, q: int)
    ensures (v + 16 * q) / 16 == v / 16 + q
  {
  }

  lemma Div4(v: int, q: int)
    ensures (v + 4 * q) / 4 == v / 4 + q
  {
  }

  /** Taking the word modulo 2^32 leaves the 12 low bits alone. */
  lemma LowBits(x: nat, v: nat, k: nat)
    requires x == v + WORD * k
    ensures v / 16 % 256 == x / 16 % 256 && v / 4 % 256 == x / 4 % 256 && v % 256 == x % 256
  {
    Div16(v, 0x1000_0000 * k);
    Mod256(v / 16, 0x10_0000 * k);
    Div4(v, 0x4000_0000 * k);
    Mod256(v / 4, 0x40_0000 * k);
    Mod256(v, 0x100_0000 * k);
  }

  lemma ModWord(v: nat, k: nat)
    requires v < WORD
    ensures (v + WORD * k) % WORD == v
  {
  }

  lemma WordStep(acc: nat, d: nat) returns (k: nat)
    ensures acc * 64 + d == (acc % WORD * 64 + d) % WORD + WORD * k
    ensures (acc % WORD * 64 + d) % WORD == (acc * 64 + d) % WORD
  {
    var w := acc % WORD * 64 + d;
    k := acc / WORD * 64 + w / WORD;
    assert acc * 64 + d == w % WORD + WORD * k;
    ModWord(w % WORD, k);
  }

  lemma ByteAt16(acc: nat, d: nat)
    requires d < 64
    ensures acc / 64 * 256 + (acc * 64 + d) / 16 % 256 == (acc * 64 + d) / 16
  {
    var h, l := acc / 64, acc % 64 * 4 + d / 16;
    assert acc * 64 + d == 16 * (256 * h + l) + d % 16;
    assert (acc * 64 + d) / 16 == 256 * h + l;
    Mod256(l, h);
  }

  lemma ByteAt4(acc: nat, d: nat)
    requires d < 64
    ensures acc / 16 * 256 + (acc * 64 + d) / 4 % 256 == (acc * 64 + d) / 4
  {
    var h, l := acc / 16, acc % 16 * 16 + d / 4;
    assert acc * 64 + d == 4 * (256 * h + l) + d % 4;
    assert (acc * 64 + d) / 4 == 256 * h + l;
    Mod256(l, h);
  }

  lemma ByteAt1(acc: nat, d: nat)
    requires d < 64
    ensures acc / 4 * 256 + (acc * 64 + d) % 256 == acc * 64 + d
  {
    var h, l := acc / 4, acc % 4 * 64 + d;
    assert acc * 64 + d == 256 * h + l;
    Mod256(l, h);
  }

  /** The byte read off the word is the next byte of the unbounded accumulator. */
  lemma NextByte(acc: nat, d: nat, valb: nat)
    requires d < 64 && valb in {0, 2, 4}
    ensures var w, x := (acc % WORD * 64 + d) % WORD, acc * 64 + d;
      acc / Pow2(valb + 2) * 256 + w / Pow2(valb) % 256 == x / Pow2(valb)
  {
    assert Pow2(0) == 1 && Pow2(2) == 4 && Pow2(4) == 16 && Pow2(6) == 64;
    var k := WordStep(acc, d);
    LowBits(acc * 64 + d, (acc % WORD * 64 + d) % WORD, k);
    if valb == 4 {
      ByteAt16(acc, d);
    } else if valb == 2 {
      ByteAt4(acc, d);
    } else {
      ByteAt1(acc, d);
    }
  }

  lemma FeedStaysInStep(s: Decoder, n: nat, acc: nat, d: nat)
    requires InStep(s, n, acc) && d < 64
    ensures InStep(Feed(s, d), n + 1, acc * 64 + d)
  {
    if s.valb == -8 {
      FirstStaysInStep(s, n, acc, d);
    } else {
      LaterStaysInStep(s, n, acc, d);
    }
  }

  /** After a whole number of bytes a sextet only waits. */
  lemma FirstStaysInStep(s: Decoder, n: nat, acc: nat, d: nat)
    requires InStep(s, n, acc) && d < 64 && s.valb == -8
    ensures InStep(Feed(s, d), n + 1, acc * 64 + d)
  {
    var k := WordStep(acc, d);
    assert Pow2(0) == 1 && Pow2(6) == 64;
    assert (acc * 64 + d) / 64 == acc;
  }

  /** Otherwise it completes a byte. */
  lemma LaterStaysInStep(s: Decoder, n: nat, acc: nat, d: nat)
    requires InStep(s, n, acc) && d < 64 && s.valb != -8
    ensures InStep(Feed(s, d), n + 1, acc * 64 + d)
  {
    var k := WordStep(acc, d);
    NextByte(acc, d, s.valb + 6);
    Deliver(s.decoded, (s.val * 64 + d) % WORD / Pow2(s.valb + 6) % 256);
  }

  lemma {:induction false} FeedAllStaysInStep(ds: seq<nat>)
    requires DigitsBelow(64, ds)
    ensures InStep(FeedAll(START, ds), |ds|, Number(64, ds))
  {
    if ds == [] {
      assert Pow2(0) == 1;
    } else {
      FeedAllStaysInStep(ds[..|ds| - 1]);
      FeedStaysInStep(FeedAll(START, ds[..|ds| - 1]), |ds| - 1, Number(64, ds[..|ds| - 1]), ds[|ds| - 1]);
    }
  }

  /**
    For every text without NUL before its first '=', the output is the whole bytes of the sextets' bit string, most
    significant first: its length and its value are exact although the accumulator wraps.
   */
  lemma DecodesTheBitString(data: string)
    requires DigitsBelow(64, Sextets(data))
    ensures var out, ds := Run(START, data).decoded, Sextets(data);
      && |out| == 6 * |ds| / 8
      && Number(256, Bytes(out)) == Number(64, ds) / Pow2(6 * |ds| % 8)
  {
    RunFeedsSextets(START, data);
    FeedAllStaysInStep(Sextets(data));
  }

  // ---------------------------------------------------------------- round trip

  /** Section 4 of RFC 4648: the bytes as 6-bit groups, three bytes to four, the last group padded with zero bits. */
  function Groups(bs: seq<byte>): (ds: seq<nat>)
    ensures DigitsBelow(64, ds)
  {
    if |bs| == 0 then []
    else if |bs| == 1 then [bs[0] / 4, bs[0] % 4 * 16]
    else if |bs| == 2 then [bs[0] / 4, bs[0] % 4 * 16 + bs[1] / 16, bs[1] % 16 * 4]
    else
      [bs[0] / 4, bs[0] % 4 * 16 + bs[1] / 16, bs[1] % 16 * 4 + bs[2] / 64, bs[2] % 64] + Groups(bs[3..])
  }

  function Letters(ds: seq<nat>): string
    requires DigitsBelow(64, ds)
  {
    if ds == [] then "" else [Letter(ds[0])] + Letters(ds[1..])
  }

  function Padding(n: nat): string {
    if n % 3 == 1 then "==" else if n % 3 == 2 then "=" else ""
  }

  function Encode(bs: seq<byte>): string {
    Letters(Groups(bs)) + Padding(|bs|)
  }

  lemma Regroup(a: string, b: string, c: string)
    ensures a + b + c == a + (b + c)
  {
  }

  lemma LetterInFront(d: nat, rest: string)
    requires d < 64
    ensures Sextets([Letter(d)] + rest) == [d] + Sextets(rest)
  {
    SextetOfLetter(d);
    assert ([Letter(d)] + rest)[1..] == rest;
  }

  lemma {:induction false} SextetsOfLetters(ds: seq<nat>, pad: string)
    requires DigitsBelow(64, ds) && (pad == "" || pad[0] == '=')
    ensures Sextets(Letters(ds) + pad) == ds
  {
    if ds == [] {
      assert Letters(ds) + pad == pad;
    } else {
      var first, rest := Letter(ds[0]), Letters(ds[1..]);
      SextetsOfLetters(ds[1..], pad);
      LetterInFront(ds[0], rest + pad);
      Regroup([first], rest, pad);
      assert [ds[0]] + ds[1..] == ds;
    }
  }

  /** With no bits pending, a group of four sextets delivers its three bytes whatever the word holds. */
  lemma FeedQuad(s: Decoder, a: byte, b: byte, c: byte)
    requires s.valb == -8
    ensures var t := Feed(Feed(Feed(Feed(s, a / 4), a % 4 * 16 + b / 16), b % 16 * 4 + c / 64), c % 64);
      t.valb == -8 && t.decoded == s.decoded + [a, b, c]
  {
    FeedPair(s, a, b / 16);
    var s2 := Feed(Feed(s, a / 4), a % 4 * 16 + b / 16);
    FeedThird(s2, b, c / 64);
    var s3 := Feed(s2, b % 16 * 4 + c / 64);
    FeedFourth(s3, c);
    assert s.decoded + [a, b, c] == s.decoded + [a] + [b] + [c];
  }

  // The 32-bit word after two, three and four sextets of a group, whatever wrapped away above.

  lemma PairWord(val: nat, a: byte, top: nat)
    requires top < 16
    ensures var w := ((val * 64 + a / 4) % WORD * 64 + (a % 4 * 16 + top)) % WORD;
      w / 16 % 256 == a && w % 16 == top
  {
    var w := val * 64 + a / 4;
    var w' := w % WORD * 64 + (a % 4 * 16 + top);
    assert w % WORD == 64 * (val - 0x400_0000 * (w / WORD)) + a / 4;
    var m := val - 0x400_0000 * (w / WORD) - 0x10_0000 * (w' / WORD);
    assert w' % WORD == 16 * (256 * m + a) + top;
    Split16(256 * m + a, top);
    Mod256(a, m);
  }

  lemma ThirdWord(val: nat, b: byte, top: nat)
    requires val % 16 == b / 16 && top < 4
    ensures var w := (val * 64 + (b % 16 * 4 + top)) % WORD;
      w / 4 % 256 == b && w % 4 == top
  {
    var w := val * 64 + (b % 16 * 4 + top);
    var m := val / 16 - 0x40_0000 * (w / WORD);
    assert w % WORD == 4 * (256 * m + b) + top;
    Split4(256 * m + b, top);
    Mod256(b, m);
  }

  lemma FourthWord(val: nat, c: byte)
    requires val % 4 == c / 64
    ensures (val * 64 + c % 64) % WORD % 256 == c
  {
    var w := val * 64 + c % 64;
    var m := val / 4 - 0x100_0000 * (w / WORD);
    assert w % WORD == 256 * m + c;
    Mod256(c, m);
  }

  lemma FeedPair(s: Decoder, a: byte, top: nat)
    requires s.valb == -8 && top < 16
    ensures var t := Feed(Feed(s, a / 4), a % 4 * 16 + top);
      t.valb == -4 && t.decoded == s.decoded + [a] && t.val % 16 == top
  {
    assert Pow2(4) == 16;
    PairWord(s.val, a, top);
  }

  lemma FeedThird(s: Decoder, b: byte, top: nat)
    requires s.valb == -4 && s.val % 16 == b / 16 && top < 4
    ensures var t := Feed(s, b % 16 * 4 + top);
      t.valb == -6 && t.decoded == s.decoded + [b] && t.val % 4 == top
  {
    assert Pow2(2) == 4;
    ThirdWord(s.val, b, top);
  }

  lemma FeedFourth(s: Decoder, c: byte)
    requires s.valb == -6 && s.val % 4 == c / 64
    ensures Feed(s, c % 64).valb == -8 && Feed(s, c % 64).decoded == s.decoded + [c]
  {
    assert Pow2(0) == 1;
    FourthWord(s.val, c);
  }

  lemma FeedOneByte(s: Decoder, a: byte)
    requires s.valb == -8
    ensures FeedAll(s, [a / 4, a % 4 * 16]).decoded == s.decoded + [a]
  {
    FeedPair(s, a, 0);
    FeedTwo(s, a / 4, a % 4 * 16, []);
    assert [a / 4, a % 4 * 16] + [] == [a / 4, a % 4 * 16];
  }

  lemma FeedTwoBytes(s: Decoder, a: byte, b: byte)
    requires s.valb == -8
    ensures FeedAll(s, [a / 4, a % 4 * 16 + b / 16, b % 16 * 4]).decoded == s.decoded + [a, b]
  {
    var d1, d2, d3 := a / 4, a % 4 * 16 + b / 16, b % 16 * 4;
    FeedPair(s, a, b / 16);
    var s2 := Feed(Feed(s, d1), d2);
    FeedThird(s2, b, 0);
    FeedTwo(s, d1, d2, [d3]);
    FeedAllFirst(s2, d3, []);
    assert [d1, d2] + [d3] == [d1, d2, d3] && [d3] + [] == [d3];
    assert s.decoded + [a] + [b] == s.decoded + [a, b];
  }

  lemma FeedFour(s: Decoder, a: byte, b: byte, c: byte, rest: seq<nat>) returns (t: Decoder)
    requires s.valb == -8
    ensures t.valb == -8 && t.decoded == s.decoded + [a, b, c]
    ensures FeedAll(s, [a / 4, a % 4 * 16 + b / 16, b % 16 * 4 + c / 64, c % 64] + rest) == FeedAll(t, rest)
  {
    var d1, d2, d3, d4 := a / 4, a % 4 * 16 + b / 16, b % 16 * 4 + c / 64, c % 64;
    FeedQuad(s, a, b, c);
    FeedTwo(s, d1, d2, [d3, d4] + rest);
    FeedTwo(Feed(Feed(s, d1), d2), d3, d4, rest);
    assert [d1, d2, d3, d4] + rest == [d1, d2] + ([d3, d4] + rest);
    t := Feed(Feed(Feed(Feed(s, d1), d2), d3), d4);
  }

  lemma {:induction false} FeedGroups(s: Decoder, bs: seq<byte>)
    requires s.valb == -8
    ensures FeedAll(s, Groups(bs)).decoded == s.decoded + bs
    decreases |bs|
  {
    if |bs| == 1 {
      FeedOneByte(s, bs[0]);
      assert bs == [bs[0]];
    } else if |bs| == 2 {
      FeedTwoBytes(s, bs[0], bs[1]);
      assert bs == [bs[0], bs[1]];
    } else if |bs| > 2 {
      var t := FeedFour(s, bs[0], bs[1], bs[2], Groups(bs[3..]));
      FeedGroups(t, bs[3..]);
      assert s.decoded + [bs[0], bs[1], bs[2]] + bs[3..] == s.decoded + bs;
    }
  }

  lemma FeedTwo(s: Decoder, d: nat, e: nat, rest: seq<nat>)
    ensures FeedAll(s, [d, e] + rest) == FeedAll(Feed(Feed(s, d), e), rest)
  {
    assert [d, e] + rest == [d] + ([e] + rest);
    FeedAllFirst(s, d, [e] + rest);
    FeedAllFirst(Feed(s, d), e, rest);
  }

  /** The loop inverts the RFC encoding of every byte string. */
  lemma DecodeInvertsEncode(bs: seq<byte>)
    ensures Run(START, Encode(bs)).decoded == bs
  {
    RunFeedsSextets(START, Encode(bs));
    SextetsOfLetters(Groups(bs), Padding(|bs|));
    FeedGroups(START, bs);
  }

  function Clean(data: string): string {
    if data == [] then []
    else if Sextet(data[0]).None? && data[0] != '=' then Clean(data[1..])
    else [data[0]] + Clean(data[1..])
  }

  lemma {:induction false} SextetsOfClean(data: string)
    ensures Sextets(Clean(data)) == Sextets(data)
  {
    if data != [] {
      SextetsOfClean(data[1..]);
      if Sextet(data[0]).Some? || data[0] == '=' {
        assert Clean(data)[1..] == Clean(data[1..]);
      }
    }
  }

  /** Characters outside the alphabet, line breaks for one, may be scattered anywhere. */
  lemma DecodeSkipsForeignCharacters(data: string, bs: seq<byte>)
    requires Clean(data) == Encode(bs)
    ensures Run(START, data).decoded == bs
  {
    RunFeedsSextets(START, data);
    RunFeedsSextets(START, Encode(bs));
    SextetsOfClean(data);
    DecodeInvertsEncode(bs);
  }

  /** A character is without effect wherever it stands exactly when it is neither '=' nor NUL nor in the alphabet. */
  lemma SkippedIff(c: char)
    ensures (forall s, rest :: Run(s, [c] + rest) == Run(s, rest)) <==> Sextet(c).None? && c != '='
  {
    forall s: Decoder, rest
      ensures Sextet(c).None? && c != '=' ==> Run(s, [c] + rest) == Run(s, rest)
    {
      assert ([c] + rest)[1..] == rest;
    }
    if c == '=' {
      SextetOfLetter(0);
      assert Run(START, "A").valb == -2;
      assert Run(START, [c] + "A") == START;
    } else if Sextet(c).Some? {
      assert ([c] + [])[1..] == [];
      assert Run(START, [c] + []) == Feed(START, Sextet(c).value);
      assert Run(START, []) == START;
    }
  }
}
