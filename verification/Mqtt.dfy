/** The embedded MQTT 3.1.1 codec: remaining lengths, framing, CONNECT and PUBLISH, as byte strings. */
module Mqtt {
  import opened Common
  import opened Radix

  type bytes = seq<byte>

  /** The largest remaining length section 2.2.3 of MQTT 3.1.1 can express, plus one. */
  const BODY_LIMIT: nat := 0x1000_0000

  // ---------------------------------------------------------------- remaining length

  /** Section 2.2.3: base-128 digits, least significant first, with a continuation bit on all but the last. */
  function LengthField(l: nat): bytes {
    if l < 128 then [l] else [128 + l % 128] + LengthField(l / 128)
  }

  lemma {:induction false} LengthFieldSplit(r: bytes, l: nat)
    ensures r + LengthField(l) ==
      if l / 128 == 0 then r + [l % 128] else r + [l % 128 + 128] + LengthField(l / 128)
  {
    if l >= 128 {
      var digit, rest := 128 + l % 128, LengthField(l / 128);
      assert LengthField(l) == [digit] + rest;
      assert r + ([digit] + rest) == r + [digit] + rest;
    }
  }

  method EncodeLength(l: nat) returns (r: bytes)
    requires l < WORD
    ensures r == LengthField(l)
  {
    r := [];
    var rest := l;
    var more := true;
    while more
      invariant more ==> r + LengthField(rest) == LengthField(l)
      invariant !more ==> r == LengthField(l)
      decreases more, rest
    {
      LengthFieldSplit(r, rest);
      var b: int := rest % 128;
      rest := rest / 128;
      if rest != 0 {
        b := b + 128;
      }
      r := r + [b];
      more := rest != 0;
    }
  }

  lemma FieldLengthStep(l: nat)
    requires l >= 128
    ensures |LengthField(l)| == 1 + |LengthField(l / 128)|
  {
  }

  /** The field takes k bytes exactly when the value needs k base-128 digits. */
  lemma FieldLengthIsMinimal(l: nat)
    requires l < WORD
    ensures |LengthField(l)| == 1 <==> l < 0x80
    ensures |LengthField(l)| == 2 <==> 0x80 <= l < 0x4000
    ensures |LengthField(l)| == 3 <==> 0x4000 <= l < 0x20_0000
    ensures |LengthField(l)| == 4 <==> 0x20_0000 <= l < BODY_LIMIT
    ensures |LengthField(l)| <= 5
  {
    if l >= 128 {
      FieldLengthStep(l);
      var m := l / 128;
      if m >= 128 {
        FieldLengthStep(m);
        if m / 128 >= 128 {
          FieldLengthStep(m / 128);
          if m / 128 / 128 >= 128 {
            FieldLengthStep(m / 128 / 128);
          }
        }
      }
    }
  }

  /** rp's length loop: the value so far, the shift, and what is left of the stream. */
  function ReadLength(s: bytes, l: nat, shift: nat): Option<(nat, bytes)> {
    if s == [] then None
    else
      var l' := (l + s[0] % 128 * Pow2(shift)) % WORD;
      if s[0] < 128 then Some((l', s[1..])) else ReadLength(s[1..], l', shift + 7)
  }

  lemma PowerStep(k: nat)
    ensures Pow2(k + 7) == 128 * Pow2(k)
  {
    assert Pow2(k + 7) == 2 * Pow2(k + 6) && Pow2(k + 6) == 2 * Pow2(k + 5) && Pow2(k + 5) == 2 * Pow2(k + 4);
    assert Pow2(k + 4) == 2 * Pow2(k + 3) && Pow2(k + 3) == 2 * Pow2(k + 2) && Pow2(k + 2) == 2 * Pow2(k + 1);
  }

  lemma SplitDigit(q: nat, r: nat, p: nat)
    ensures (128 * q + r) * p == r * p + q * (128 * p) && r * p <= (128 * q + r) * p
  {
    assert (128 * q + r) * p == 128 * q * p + r * p;
    assert 128 * q * p == q * (128 * p);
  }

  lemma ReadLengthStep(b: byte, tail: bytes, acc: nat, shift: nat)
    requires acc + b % 128 * Pow2(shift) < WORD
    ensures var l := acc + b % 128 * Pow2(shift);
      ReadLength([b] + tail, acc, shift) == if b < 128 then Some((l, tail)) else ReadLength(tail, l, shift + 7)
  {
    var s, l := [b] + tail, acc + b % 128 * Pow2(shift);
    assert s[0] == b && s[1..] == tail;
    SmallMod(l);
    assert (acc + s[0] % 128 * Pow2(shift)) % WORD == l;
  }

  lemma SmallMod(l: nat)
    requires l < WORD
    ensures l % WORD == l
  {
  }

  /** The first digit, and what is left for the others, in the units of the shift. */
  lemma DigitRoom(l: nat, acc: nat, shift: nat)
    requires l >= 128 && acc + l * Pow2(shift) < WORD
    ensures var q, r, p := l / 128, l % 128, Pow2(shift);
      && acc + r * p < WORD && Pow2(shift + 7) == 128 * p
      && acc + r * p + q * Pow2(shift + 7) == acc + l * p
  {
    assert l == 128 * (l / 128) + l % 128;
    SplitDigit(l / 128, l % 128, Pow2(shift));
    PowerStep(shift);
  }

  lemma {:induction false} FieldInFront(l: nat, rest: bytes)
    requires l >= 128
    ensures LengthField(l) + rest == [128 + l % 128] + (LengthField(l / 128) + rest)
  {
  }

  lemma {:induction false} ReadLengthOfField(l: nat, rest: bytes, acc: nat, shift: nat)
    requires acc + l * Pow2(shift) < WORD
    ensures ReadLength(LengthField(l) + rest, acc, shift) == Some((acc + l * Pow2(shift), rest))
    decreases l
  {
    if l < 128 {
      ReadLengthStep(l, rest, acc, shift);
    } else {
      var q, digit := l / 128, 128 + l % 128;
      DigitRoom(l, acc, shift);
      FieldInFront(l, rest);
      assert digit % 128 == l % 128;
      ReadLengthStep(digit, LengthField(q) + rest, acc, shift);
      ReadLengthOfField(q, rest, acc + l % 128 * Pow2(shift), shift + 7);
    }
  }

  // ---------------------------------------------------------------- framing

  datatype Packet = Packet(header: byte, body: bytes)

  /** The size is passed on as 32 bits. */
  function Frame(p: Packet): bytes {
    [p.header] + LengthField(|p.body| % WORD) + p.body
  }

  function Wire(ps: seq<Packet>): bytes {
    if ps == [] then [] else Frame(ps[0]) + Wire(ps[1..])
  }

  predicate Sendable(ps: seq<Packet>) {
    forall i :: 0 <= i < |ps| ==> |ps[i].body| < BODY_LIMIT
  }

  /** What rp reports: the packet type and the body. */
  datatype Received = Received(kind: nat, body: bytes)

  function Receipts(ps: seq<Packet>): (rs: seq<Received>)
    ensures |rs| == |ps| && forall i :: 0 <= i < |ps| ==> rs[i] == Received(ps[i].header / 16, ps[i].body)
  {
    seq(|ps|, i requires 0 <= i < |ps| => Received(ps[i].header / 16, ps[i].body))
  }

  /** One packet off the front of a byte stream; None when the stream ends inside it. */
  function ReadPacket(s: bytes): Option<(Received, bytes)> {
    if s == [] then None
    else
      var r := ReadLength(s[1..], 0, 0);
      if r.None? || |r.value.1| < r.value.0 then None
      else Some((Received(s[0] / 16, r.value.1[..r.value.0]), r.value.1[r.value.0..]))
  }

  lemma ReadPacketOfFrame(p: Packet, rest: bytes)
    requires |p.body| < BODY_LIMIT
    ensures ReadPacket(Frame(p) + rest) == Some((Received(p.header / 16, p.body), rest))
  {
    var s := Frame(p) + rest;
    assert s[1..] == LengthField(|p.body|) + (p.body + rest);
    assert Pow2(0) == 1;
    ReadLengthOfField(|p.body|, p.body + rest, 0, 0);
    assert (p.body + rest)[..|p.body|] == p.body && (p.body + rest)[|p.body|..] == rest;
  }

  // ---------------------------------------------------------------- strings

  /** es: a 16-bit big-endian length, the size truncated to 16 bits, then the bytes (section 1.5.3). */
  function EncodeString(s: bytes): bytes {
    [|s| % 0x1_0000 / 256, |s| % 256] + s
  }

  function ReadString(s: bytes): Option<(bytes, bytes)> {
    if |s| < 2 then None
    else
      var n := s[0] as int * 256 + s[1] as int;
      if |s| < 2 + n then None else Some((s[2..2 + n], s[2 + n..]))
  }

  predicate Fits(s: bytes) {
    |s| < 0x1_0000
  }

  /** A string reads back whole exactly when its length fits the prefix. */
  lemma ReadStringOfEncodeString(s: bytes, rest: bytes)
    ensures ReadString(EncodeString(s) + rest).Some?
    ensures Fits(s) ==> ReadString(EncodeString(s) + rest) == Some((s, rest))
    ensures !Fits(s) ==> ReadString(EncodeString(s) + rest).value.0 != s
  {
    var t := EncodeString(s) + rest;
    var n := |s| % 0x1_0000;
    assert n / 256 * 256 + |s| % 256 == n;
    assert t[2..] == s + rest;
    assert t[2..2 + n] == s[..n];
    if Fits(s) {
      assert t[2 + n..] == rest;
    }
  }

  // ---------------------------------------------------------------- CONNECT

  datatype ConnectArgs = ConnectArgs(clientId: bytes, willTopic: bytes, willPayload: bytes, willQos: int,
                                     username: bytes, password: bytes)

  const PROTOCOL_HEADER: bytes := [0x00, 0x04, 0x4D, 0x51, 0x54, 0x54, 0x04]

  function ConnectFlags(c: ConnectArgs): byte {
    2 + (if c.username != [] then 0x80 + (if c.password != [] then 0x40 else 0) else 0)
    + (if c.willTopic != [] then 0x04 + 0x08 else 0)
  }

  function ConnectPayload(c: ConnectArgs): bytes {
    EncodeString(c.clientId)
    + ((if c.willTopic != [] then EncodeString(c.willTopic) + EncodeString(c.willPayload) else [])
       + ((if c.username != [] then EncodeString(c.username) else [])
          + (if c.username != [] && c.password != [] then EncodeString(c.password) else [])))
  }

  function ConnectBody(c: ConnectArgs): bytes {
    PROTOCOL_HEADER + [ConnectFlags(c), 0x00, 0x3C] + ConnectPayload(c)
  }

  datatype Will = Will(topic: bytes, payload: bytes, qos: int)

  /** A CONNECT packet as its receiver understands it. */
  datatype ConnectView = ConnectView(
    clientId: bytes, will: Option<Will>, username: Option<bytes>, password: Option<bytes>,
    cleanSession: bool, keepAlive: nat)

  predicate Bit(flags: byte, weight: nat)
    requires weight > 0
  {
    flags / weight % 2 == 1
  }

  function ReadOptional(present: bool, s: bytes): Option<(Option<bytes>, bytes)> {
    if !present then Some((None, s))
    else
      var r := ReadString(s);
      if r.None? then None else Some((Some(r.value.0), r.value.1))
  }

  /** A run of length-prefixed fields, some of them absent, up to the end of the packet. */
  function ReadFields(present: seq<bool>, s: bytes): (r: Option<seq<Option<bytes>>>)
    ensures r.Some? ==> |r.value| == |present| && forall i :: 0 <= i < |present| ==> (r.value[i].Some? <==> present[i])
  {
    if present == [] then if s == [] then Some([]) else None
    else
      var first := ReadOptional(present[0], s);
      if first.None? then None
      else
        var rest := ReadFields(present[1..], first.value.1);
        if rest.None? then None else Some([first.value.0] + rest.value)
  }

  /** The payload fields in the order of section 3.1.3, each present as its flag of section 3.1.2.3 says. */
  function ReadConnectPayload(flags: byte, keepAlive: nat, s: bytes): Option<ConnectView> {
    var will, user, pass := Bit(flags, 0x04), Bit(flags, 0x80), Bit(flags, 0x40);
    var r := ReadFields([true, will, will, user, pass], s);
    if r.None? then None else Some(ViewOf(flags, keepAlive, r.value))
  }

  /** The variable header of section 3.1.2: protocol name "MQTT", level 4, flags, keep-alive. */
  function ReadConnect(v: bytes): Option<ConnectView> {
    var name := ReadString(v);
    if name.None? || name.value.0 != [0x4D, 0x51, 0x54, 0x54] then None else ReadAfterName(name.value.1)
  }

  function ReadAfterName(h: bytes): Option<ConnectView> {
    if |h| < 4 || h[0] != 4 || Bit(h[1], 0x01) then None
    else ReadConnectPayload(h[1], h[2] as int * 256 + h[3] as int, h[4..])
  }

  /** What connect() and set_will_message() were asked for: a password needs a user name. */
  function Intended(c: ConnectArgs): ConnectView {
    ConnectView(c.clientId,
                if c.willTopic != [] then Some(Will(c.willTopic, c.willPayload, c.willQos)) else None,
                if c.username != [] then Some(c.username) else None,
                if c.username != [] && c.password != [] then Some(c.password) else None,
                true, 60)
  }

  predicate AllFit(c: ConnectArgs) {
    && Fits(c.clientId)
    && (c.willTopic != [] ==> Fits(c.willTopic) && Fits(c.willPayload))
    && (c.username != [] ==> Fits(c.username) && Fits(c.password))
  }

  lemma FlagBits(c: ConnectArgs)
    ensures var f := ConnectFlags(c);
      && Bit(f, 0x02) && !Bit(f, 0x01) && !Bit(f, 0x20)
      && (Bit(f, 0x04) <==> c.willTopic != [])
      && (c.willTopic != [] ==> f / 8 % 4 == 1)
      && (Bit(f, 0x80) <==> c.username != [])
      && (Bit(f, 0x40) <==> c.username != [] && c.password != [])
  {
  }

  function Optional(present: bool, s: bytes): bytes {
    if present then EncodeString(s) else []
  }

  lemma ReadOptionalOf(present: bool, s: bytes, rest: bytes)
    ensures ReadOptional(present, Optional(present, s) + rest).Some?
    ensures !present || Fits(s) ==>
      ReadOptional(present, Optional(present, s) + rest) == Some((if present then Some(s) else None, rest))
    ensures present && !Fits(s) ==> ReadOptional(present, Optional(present, s) + rest).value.0 != Some(s)
  {
    if present {
      ReadStringOfEncodeString(s, rest);
    } else {
      assert Optional(present, s) + rest == rest;
    }
  }

  datatype Field = Field(present: bool, content: bytes)

  function WriteFields(fs: seq<Field>): bytes {
    if fs == [] then [] else Optional(fs[0].present, fs[0].content) + WriteFields(fs[1..])
  }

  function Presence(fs: seq<Field>): (r: seq<bool>)
    ensures |r| == |fs| && forall i :: 0 <= i < |fs| ==> r[i] == fs[i].present
  {
    seq(|fs|, i requires 0 <= i < |fs| => fs[i].present)
  }

  function Contents(fs: seq<Field>): (r: seq<Option<bytes>>)
    ensures |r| == |fs| && forall i :: 0 <= i < |fs| ==> r[i] == if fs[i].present then Some(fs[i].content) else None
  {
    seq(|fs|, i requires 0 <= i < |fs| => if fs[i].present then Some(fs[i].content) else None)
  }

  predicate FieldsFit(fs: seq<Field>) {
    forall i :: 0 <= i < |fs| && fs[i].present ==> Fits(fs[i].content)
  }

  lemma FieldsSplit(fs: seq<Field>)
    requires fs != []
    ensures Presence(fs)[1..] == Presence(fs[1..])
    ensures Contents(fs) == [if fs[0].present then Some(fs[0].content) else None] + Contents(fs[1..])
    ensures FieldsFit(fs) <==> (fs[0].present ==> Fits(fs[0].content)) && FieldsFit(fs[1..])
  {
    var rest := fs[1..];
    assert forall i :: 0 <= i < |rest| ==> rest[i] == fs[i + 1];
    assert forall i :: 0 < i < |fs| ==> fs[i] == rest[i - 1];
  }

  lemma {:induction false} FieldsRoundTrip(fs: seq<Field>)
    ensures ReadFields(Presence(fs), WriteFields(fs)) == Some(Contents(fs)) <==> FieldsFit(fs)
  {
    if fs != [] {
      var f, rest := fs[0], WriteFields(fs[1..]);
      FieldsSplit(fs);
      FieldsRoundTrip(fs[1..]);
      ReadOptionalOf(f.present, f.content, rest);
      ConsRead(Presence(fs), Optional(f.present, f.content) + rest,
               if f.present then Some(f.content) else None, Contents(fs[1..]));
    }
  }

  /** Reading one field more succeeds with the expected contents exactly when both parts do. */
  lemma ConsRead(present: seq<bool>, s: bytes, head: Option<bytes>, tail: seq<Option<bytes>>)
    requires present != []
    ensures ReadFields(present, s) == Some([head] + tail) <==>
            var first := ReadOptional(present[0], s);
            first.Some? && first.value.0 == head && ReadFields(present[1..], first.value.1) == Some(tail)
  {
    var first := ReadOptional(present[0], s);
    if first.Some? {
      var rest := ReadFields(present[1..], first.value.1);
      if rest.Some? {
        var all := [first.value.0] + rest.value;
        assert all[1..] == rest.value && ([head] + tail)[1..] == tail;
        assert all[0] == first.value.0 && ([head] + tail)[0] == head;
      }
    }
  }

  function ConnectFields(c: ConnectArgs): seq<Field> {
    var w, u := c.willTopic != [], c.username != [];
    [Field(true, c.clientId), Field(w, c.willTopic), Field(w, c.willPayload),
     Field(u, c.username), Field(u && c.password != [], c.password)]
  }

  lemma PayloadIsFields(c: ConnectArgs)
    ensures ConnectPayload(c) == WriteFields(ConnectFields(c))
  {
    var fs := ConnectFields(c);
    assert WriteFields(fs[1..][1..][1..][1..][1..]) == [];
    assert WriteFields(fs[1..][1..][1..]) ==
      Optional(fs[3].present, fs[3].content) + Optional(fs[4].present, fs[4].content);
    assert WriteFields(fs[1..]) ==
      (Optional(fs[1].present, fs[1].content) + Optional(fs[2].present, fs[2].content)) +
          WriteFields(fs[1..][1..][1..]);
  }

  /** The view of a CONNECT with these flags and fields. */
  function ViewOf(flags: byte, keepAlive: nat, k: seq<Option<bytes>>): ConnectView
    requires |k| == 5 && k[0].Some? && (Bit(flags, 0x04) ==> k[1].Some? && k[2].Some?)
  {
    ConnectView(k[0].value,
                if Bit(flags, 0x04) then Some(Will(k[1].value, k[2].value, flags / 8 % 4)) else None,
                k[3], k[4], Bit(flags, 0x02), keepAlive)
  }

  lemma SameViewSameFields(flags: byte, keepAlive: nat, j: seq<Option<bytes>>, k: seq<Option<bytes>>)
    requires |j| == 5 && j[0].Some? && (if Bit(flags, 0x04) then j[1].Some? && j[2].Some? else j[1].None? && j[2].None?)
    requires |k| == 5 && k[0].Some? && (if Bit(flags, 0x04) then k[1].Some? && k[2].Some? else k[1].None? && k[2].None?)
    ensures ViewOf(flags, keepAlive, j) == ViewOf(flags, keepAlive, k) <==> j == k
  {
    if ViewOf(flags, keepAlive, j) == ViewOf(flags, keepAlive, k) {
      assert j[0] == k[0] && j[1] == k[1] && j[2] == k[2] && j[3] == k[3] && j[4] == k[4];
      assert j == k;
    }
  }

  lemma ConnectFieldsFit(c: ConnectArgs)
    ensures FieldsFit(ConnectFields(c)) <==> AllFit(c)
  {
    var fs := ConnectFields(c);
    if FieldsFit(fs) {
      assert fs[0].present ==> Fits(fs[0].content);
      assert fs[1].present ==> Fits(fs[1].content);
      assert fs[2].present ==> Fits(fs[2].content);
      assert fs[3].present ==> Fits(fs[3].content);
      assert fs[4].present ==> Fits(fs[4].content);
    }
  }

  lemma ConnectPresence(c: ConnectArgs)
    ensures var w, u := c.willTopic != [], c.username != [];
      Presence(ConnectFields(c)) == [true, w, w, u, u && c.password != []]
  {
  }

  lemma PayloadRoundTrip(c: ConnectArgs, f: byte, keepAlive: nat)
    requires Bit(f, 0x04) <==> c.willTopic != []
    requires Bit(f, 0x80) <==> c.username != []
    requires Bit(f, 0x40) <==> c.username != [] && c.password != []
    ensures ReadConnectPayload(f, keepAlive, ConnectPayload(c)) ==
            Some(ViewOf(f, keepAlive, Contents(ConnectFields(c))))
            <==> AllFit(c)
  {
    var fs := ConnectFields(c);
    PayloadIsFields(c);
    FieldsRoundTrip(fs);
    ConnectFieldsFit(c);
    ConnectPresence(c);
    var r := ReadFields(Presence(fs), WriteFields(fs));
    if r.Some? {
      SameViewSameFields(f, keepAlive, r.value, Contents(fs));
    }
  }

  /** The flags ask for the will at QoS 1, whatever set_will_message was given. */
  predicate WillAsSent(c: ConnectArgs) {
    c.willTopic != [] ==> c.willQos == 1
  }

  /**
    The receiver of a CONNECT gets exactly what was intended if and only if every sent string fits
    its prefix and the will, if there is one, was meant for QoS 1.
   */
  lemma ConnectRoundTrip(c: ConnectArgs)
    ensures ReadConnect(ConnectBody(c)) == Some(Intended(c)) <==> AllFit(c) && WillAsSent(c)
  {
    ConnectHeader(c);
    FlagBits(c);
    PayloadRoundTrip(c, ConnectFlags(c), 60);
    assert ViewOf(ConnectFlags(c), 60, Contents(ConnectFields(c))) == Intended(c.(willQos := 1));
    ViewTellsQos(c);
  }

  /** Whatever else is read, a will that is read is read at QoS 1. */
  lemma ViewTellsQos(c: ConnectArgs)
    ensures ReadConnect(ConnectBody(c)) == Some(Intended(c)) ==> WillAsSent(c)
    ensures WillAsSent(c) ==> Intended(c) == Intended(c.(willQos := 1))
  {
    FlagBits(c);
    ConnectHeader(c);
  }

  /** The body starts as section 3.1.2 asks: the name "MQTT", level 4, the flags, a keep-alive of a minute. */
  lemma ConnectHeader(c: ConnectArgs)
    ensures ReadConnect(ConnectBody(c)) == ReadConnectPayload(ConnectFlags(c), 60, ConnectPayload(c))
  {
    var h := [0x04, ConnectFlags(c), 0x00, 0x3C] + ConnectPayload(c);
    NameInFront(h);
    HeaderShape(ConnectFlags(c), ConnectPayload(c));
    FlagBits(c);
    AfterName(ConnectFlags(c), ConnectPayload(c));
  }

  lemma HeaderShape(flags: byte, payload: bytes)
    ensures PROTOCOL_HEADER + [flags, 0x00, 0x3C] + payload ==
            [0x00, 0x04] + [0x4D, 0x51, 0x54, 0x54] + ([0x04, flags, 0x00, 0x3C] + payload)
  {
  }

  lemma AfterName(flags: byte, payload: bytes)
    requires !Bit(flags, 0x01)
    ensures ReadAfterName([0x04, flags, 0x00, 0x3C] + payload) == ReadConnectPayload(flags, 60, payload)
  {
    var h := [0x04, flags, 0x00, 0x3C] + payload;
    assert h[4..] == payload;
  }

  lemma NameInFront(h: bytes)
    ensures ReadString([0x00, 0x04] + [0x4D, 0x51, 0x54, 0x54] + h) == Some(([0x4D, 0x51, 0x54, 0x54], h))
  {
    var name: bytes := [0x4D, 0x51, 0x54, 0x54];
    assert EncodeString(name) == [0x00, 0x04] + name;
    ReadStringOfEncodeString(name, h);
  }

  /** connect() sends the body as a packet of type 1 with clear flags (section 3.1.1). */
  function ConnectPacket(c: ConnectArgs): Packet {
    Packet(0x10, ConnectBody(c))
  }

  lemma ConnectPacketReads(c: ConnectArgs, rest: bytes)
    requires |ConnectBody(c)| < BODY_LIMIT && AllFit(c) && WillAsSent(c)
    ensures ConnectPacket(c).header / 16 == 1 && ConnectPacket(c).header % 16 == 0
    ensures var r := ReadPacket(Frame(ConnectPacket(c)) + rest);
      r.Some? && r.value.1 == rest && r.value.0.kind == 1 && ReadConnect(r.value.0.body) == Some(Intended(c))
  {
    ReadPacketOfFrame(ConnectPacket(c), rest);
    ConnectRoundTrip(c);
  }

  // ---------------------------------------------------------------- PUBLISH

  datatype Message = Message(topic: bytes, payload: bytes)

  function PublishBody(pid: nat, m: Message, qos: int): bytes
    requires pid < 0x1_0000
  {
    EncodeString(m.topic) + ((if qos > 0 then [pid / 256, pid % 256] else []) + m.payload)
  }

  /** 0x30 | (qos << 1), cut to a byte: the two bits of 0x30 are set whatever the QoS has there. */
  function PublishHeader(qos: int): byte {
    var shifted := 2 * qos % 256;
    shifted / 64 * 64 + 0x30 + shifted % 16
  }

  function PublishPacket(pid: nat, m: Message, qos: int): Packet
    requires pid < 0x1_0000
  {
    Packet(PublishHeader(qos), PublishBody(pid, m, qos))
  }

  /**
    The receive loop on the body of a type-3 packet. It always skips a packet id; None is the
    out_of_range that substr throws.
   */
  function DecodePublish(pl: bytes): Option<Message> {
    if |pl| < 2 then None
    else
      var n := pl[0] as int * 256 + pl[1] as int;
      var topic := if 2 + n <= |pl| then pl[2..2 + n] else pl[2..];
      var start := 2 + n + 2;
      if start > |pl| then None else Some(Message(topic, pl[start..]))
  }

  /** What the callback gets from a packet: nothing unless its type is 3. */
  function Delivered(p: Packet): Option<Message> {
    if p.header / 16 == 3 then DecodePublish(p.body) else None
  }

  /** The QoS spoils the packet type unless it is below 32, counted modulo 128. */
  lemma PublishTypeIff(qos: int)
    ensures PublishHeader(qos) / 16 == 3 <==> qos % 128 < 32
  {
    assert 2 * qos % 256 == 2 * (qos % 128);
  }

  /**
    A published message arrives unchanged if and only if it is sent at a QoS of 1 or above that
    keeps the type, and its topic fits.
   */
  lemma PublishRoundTrip(pid: nat, m: Message, qos: int)
    requires pid < 0x1_0000
    ensures Delivered(PublishPacket(pid, m, qos)) == Some(m) <==> qos > 0 && qos % 128 < 32 && Fits(m.topic)
  {
    PublishTypeIff(qos);
    BodyRoundTrip(pid, m, qos);
  }

  lemma BodyRoundTrip(pid: nat, m: Message, qos: int)
    requires pid < 0x1_0000
    ensures DecodePublish(PublishBody(pid, m, qos)) == Some(m) <==> qos > 0 && Fits(m.topic)
  {
    var tail := (if qos > 0 then [pid / 256, pid % 256] else []) + m.payload;
    DecodeBody(m.topic, tail);
    if Fits(m.topic) {
      if qos > 0 {
        assert tail[2..] == m.payload;
      } else {
        assert tail == m.payload;
      }
    }
  }

  /** The receive loop takes as much of the topic as its 16-bit length says, and skips two bytes after it. */
  lemma DecodeBody(topic: bytes, tail: bytes)
    ensures var n, r := |topic| % 0x1_0000, DecodePublish(EncodeString(topic) + tail);
      && (r.Some? ==> r.value.topic == topic[..n])
      && (Fits(topic) ==> r == if |tail| < 2 then None else Some(Message(topic, tail[2..])))
  {
    var pl, n := EncodeString(topic) + tail, |topic| % 0x1_0000;
    BodyLength(topic, tail);
    assert pl[2..] == topic + tail;
    assert pl[2..2 + n] == topic[..n];
    if Fits(topic) && |tail| >= 2 {
      AfterTopic(pl, topic, tail);
    }
  }

  lemma BodyLength(topic: bytes, tail: bytes)
    ensures var pl := EncodeString(topic) + tail;
      |pl| == 2 + |topic| + |tail| && pl[0] as int * 256 + pl[1] as int == |topic| % 0x1_0000
  {
    var n := |topic| % 0x1_0000;
    assert n / 256 * 256 + |topic| % 256 == n;
  }

  lemma AfterTopic(pl: bytes, topic: bytes, tail: bytes)
    requires |pl| == 2 + |topic| + |tail| && pl[2..] == topic + tail && |tail| >= 2
    ensures pl[2 + |topic| + 2..] == tail[2..]
  {
    assert pl[2..][|topic| + 2..] == pl[|topic| + 4..];
    assert (topic + tail)[|topic| + 2..] == tail[2..];
  }

  lemma QosZeroLosesTwoBytes()
    ensures DecodePublish(PublishBody(1, Message([0x61], [0x31, 0x32, 0x33]), 0)) == Some(Message([0x61], [0x33]))
  {
    var pl := PublishBody(1, Message([0x61], [0x31, 0x32, 0x33]), 0);
    assert pl == [0, 1, 0x61, 0x31, 0x32, 0x33];
  }

  // ---------------------------------------------------------------- PUBLISH by the standard

  /** A PUBLISH as section 3.3 reads it. */
  datatype PublishView = PublishView(dup: bool, qos: int, retain: bool, packetId: Option<nat>, message: Message)

  /** Flags from the fixed header; a packet id only above QoS 0; QoS 3 is malformed (section 3.3.1.2). */
  function ReadPublish(p: Packet): Option<PublishView> {
    var qos, topic := p.header / 2 % 4, ReadString(p.body);
    if p.header / 16 != 3 || qos == 3 || topic.None? then None
    else
      var dup, retain, rest := p.header / 8 % 2 == 1, p.header % 2 == 1, topic.value.1;
      if qos == 0 then Some(PublishView(dup, 0, retain, None, Message(topic.value.0, rest)))
      else if |rest| < 2 then None
      else
        var pid := rest[0] as int * 256 + rest[1] as int;
        Some(PublishView(dup, qos, retain, Some(pid), Message(topic.value.0, rest[2..])))
  }

  /** What publish was asked for: that QoS and message, not a duplicate, not retained. */
  function Asked(pid: nat, m: Message, qos: int): PublishView {
    PublishView(false, qos, false, if qos > 0 then Some(pid) else None, m)
  }

  lemma HeaderFlags(qos: nat)
    requires qos <= 2
    ensures var h := PublishHeader(qos); h / 16 == 3 && h / 2 % 4 == qos && h / 8 % 2 == 0 && h % 2 == 0
  {
  }

  lemma IdAndPayload(pid: nat, payload: bytes)
    requires pid < 0x1_0000
    ensures var rest: bytes := [pid / 256, pid % 256] + payload;
      rest[0] as int * 256 + rest[1] as int == pid && rest[2..] == payload
  {
  }

  function AfterTheTopic(pid: nat, m: Message, qos: int): bytes
    requires pid < 0x1_0000
  {
    (if qos > 0 then [pid / 256, pid % 256] else []) + m.payload
  }

  lemma ReadPublishAtZero(m: Message)
    requires Fits(m.topic)
    ensures ReadPublish(PublishPacket(0, m, 0)) == Some(Asked(0, m, 0))
  {
    HeaderFlags(0);
    assert AfterTheTopic(0, m, 0) == m.payload;
    ReadStringOfEncodeString(m.topic, m.payload);
  }

  lemma ReadPublishAbove(pid: nat, m: Message, qos: nat)
    requires pid < 0x1_0000 && 1 <= qos <= 2 && Fits(m.topic)
    ensures ReadPublish(PublishPacket(pid, m, qos)) == Some(Asked(pid, m, qos))
  {
    HeaderFlags(qos);
    var rest := AfterTheTopic(pid, m, qos);
    IdAndPayload(pid, m.payload);
    ReadStringOfEncodeString(m.topic, rest);
    assert PublishBody(pid, m, qos) == EncodeString(m.topic) + rest;
  }

  lemma NoIdAtZero(pid: nat, m: Message)
    requires pid < 0x1_0000
    ensures PublishPacket(pid, m, 0) == PublishPacket(0, m, 0) && Asked(pid, m, 0) == Asked(0, m, 0)
  {
  }

  lemma LongTopicIsCut(pid: nat, m: Message, qos: int)
    requires pid < 0x1_0000 && !Fits(m.topic)
    ensures var r := ReadPublish(PublishPacket(pid, m, qos)); r.Some? ==> r.value.message != m
  {
    ReadStringOfEncodeString(m.topic, AfterTheTopic(pid, m, qos));
  }

  /**
    A broker that follows the standard reads back exactly what publish was asked for if and only
    if the QoS is one the standard knows and the topic fits its length prefix.
   */
  lemma PublishByTheStandard(pid: nat, m: Message, qos: int)
    requires pid < 0x1_0000
    ensures ReadPublish(PublishPacket(pid, m, qos)) == Some(Asked(pid, m, qos)) <==> 0 <= qos <= 2 && Fits(m.topic)
  {
    if !Fits(m.topic) {
      LongTopicIsCut(pid, m, qos);
    } else if qos == 0 {
      NoIdAtZero(pid, m);
      ReadPublishAtZero(m);
    } else if 1 <= qos <= 2 {
      ReadPublishAbove(pid, m, qos);
    }
  }
}
