/** The socket side of the embedded client: exact reads over arbitrary chunks, the receive loop, publish. */
module MqttLink {
  import opened Common
  import opened Radix
  import opened Mqtt

  // ---------------------------------------------------------------- streams of packets

  /** Every packet that can be read off the stream, in order. */
  function ReadAll(s: bytes): seq<Received>
    decreases |s|
  {
    var r := ReadPacket(s);
    if r.None? then [] else ReadPacketShrinks(s); [r.value.0] + ReadAll(r.value.1)
  }

  /** The bytes after the last complete packet. */
  function Leftover(s: bytes): bytes
    decreases |s|
  {
    var r := ReadPacket(s);
    if r.None? then s else ReadPacketShrinks(s); Leftover(r.value.1)
  }

  lemma {:induction false} ReadLengthShrinks(s: bytes, l: nat, shift: nat)
    requires ReadLength(s, l, shift).Some?
    ensures |ReadLength(s, l, shift).value.1| < |s|
    decreases |s|
  {
    if s[0] >= 128 {
      ReadLengthShrinks(s[1..], (l + s[0] % 128 * Pow2(shift)) % WORD, shift + 7);
    }
  }

  lemma ReadPacketShrinks(s: bytes)
    requires ReadPacket(s).Some?
    ensures |ReadPacket(s).value.1| < |s|
  {
    ReadLengthShrinks(s[1..], 0, 0);
  }

  /** Reading what was framed gives back the list of packets and leaves nothing over. */
  lemma {:induction false} ReadAllOfWire(ps: seq<Packet>)
    requires Sendable(ps)
    ensures ReadAll(Wire(ps)) == Receipts(ps) && Leftover(Wire(ps)) == []
  {
    if ps != [] {
      ReadPacketOfFrame(ps[0], Wire(ps[1..]));
      ReadAllOfWire(ps[1..]);
      assert Receipts(ps) == [Received(ps[0].header / 16, ps[0].body)] + Receipts(ps[1..]);
    }
  }

  // ---------------------------------------------------------------- the link

  /**
    A connected socket. `incoming` is what the peer has sent and recv has not handed out; a flaky
    link may fail at any call, a sound one only when nothing is left.
   */
  class Link {
    var incoming: bytes
    const flaky: bool

    constructor (incoming: bytes, flaky: bool)
      ensures this.incoming == incoming && this.flaky == flaky
    {
      this.incoming := incoming;
      this.flaky := flaky;
    }

    /** recv: some non-empty chunk of at most n bytes, or nothing on failure. */
    method Recv(n: nat) returns (chunk: bytes)
      requires n > 0
      modifies this
      ensures |chunk| <= n && chunk + incoming == old(incoming)
      ensures chunk == [] ==> incoming == old(incoming) && (flaky || incoming == [])
    {
      var fail := *;
      if incoming == [] || (flaky && fail) {
        return [];
      }
      var r :| 1 <= r <= n && r <= |incoming|;
      chunk := incoming[..r];
      incoming := incoming[r..];
    }

    /** re: keep calling recv until n bytes are there. */
    method ReadExact(n: nat) returns (ok: bool, buf: bytes)
      modifies this
      ensures ok ==> |buf| == n && buf + incoming == old(incoming)
      ensures !ok ==> flaky || |old(incoming)| < n
      ensures |incoming| <= |old(incoming)|
    {
      buf := [];
      while |buf| < n
        invariant |buf| <= n && buf + incoming == old(incoming)
      {
        var chunk := Recv(n - |buf|);
        if chunk == [] {
          return false, buf;
        }
        ghost var before := buf;
        buf := buf + chunk;
        assert buf + incoming == before + (chunk + incoming);
      }
      ok := true;
    }

    /** rp: fixed header byte, remaining length, body. */
    method ReadOne() returns (ok: bool, kind: nat, body: bytes)
      modifies this
      ensures ok ==> ReadPacket(old(incoming)) == Some((Received(kind, body), incoming))
      ensures !ok ==> flaky || ReadPacket(old(incoming)) == None
      ensures |incoming| <= |old(incoming)|
    {
      ok, kind, body := false, 0, [];
      var got, h := ReadExact(1);
      if !got {
        return;
      }
      assert incoming == old(incoming)[1..] && old(incoming)[0] == h[0];
      kind := h[0] / 16;
      ghost var tail := incoming;
      var l: nat, shift := 0, 0;
      var more := true;
      while more
        invariant more ==> ReadLength(incoming, l, shift) == ReadLength(tail, 0, 0)
        invariant !more ==> ReadLength(tail, 0, 0) == Some((l, incoming))
        invariant |incoming| <= |tail|
        decreases more, |incoming|
      {
        ghost var s := incoming;
        var readable, b := ReadExact(1);
        if !readable {
          return;
        }
        assert incoming == s[1..] && s[0] == b[0];
        l := (l + b[0] % 128 * Pow2(shift)) % WORD;
        shift := shift + 7;
        more := b[0] >= 128;
      }
      ghost var rest := incoming;
      ok, body := ReadExact(l);
      if ok {
        assert rest[..l] == body && rest[l..] == incoming;
      }
    }

    /** The receive thread: packets until the first failed read. */
    method ReceiveLoop() returns (packets: seq<Received>)
      modifies this
      ensures packets <= ReadAll(old(incoming))
      ensures !flaky ==> packets == ReadAll(old(incoming))
      ensures !flaky ==> |incoming| <= |Leftover(old(incoming))|
    {
      packets := [];
      var running := true;
      while running
        invariant running ==> packets + ReadAll(incoming) == ReadAll(old(incoming))
        invariant packets <= ReadAll(old(incoming))
        invariant running ==> Leftover(incoming) == Leftover(old(incoming))
        invariant !running && !flaky ==> |incoming| <= |Leftover(old(incoming))|
        invariant !running && !flaky ==> packets == ReadAll(old(incoming))
        decreases running, |incoming|
      {
        ghost var s := incoming;
        var ok, kind, body := ReadOne();
        if ok {
          ReadPacketShrinks(s);
          assert ReadAll(s) == [Received(kind, body)] + ReadAll(incoming);
          ghost var before := packets;
          packets := packets + [Received(kind, body)];
          assert packets + ReadAll(incoming) == before + ReadAll(s);
        } else {
          running := false;
        }
      }
    }
  }

  /** However recv cuts up the bytes of framed packets, a sound link delivers exactly those packets. */
  method DeliverFramed(ps: seq<Packet>, link: Link) returns (packets: seq<Received>)
    requires Sendable(ps) && link.incoming == Wire(ps)
    modifies link
    ensures packets <= Receipts(ps)
    ensures !link.flaky ==> packets == Receipts(ps) && link.incoming == []
  {
    ReadAllOfWire(ps);
    packets := link.ReceiveLoop();
  }

  // ---------------------------------------------------------------- publishing

  /** The callbacks the receive loop makes; a malformed body throws, and nothing follows it. */
  function Callbacks(rs: seq<Received>): (ms: seq<Message>)
    ensures |ms| <= |rs|
  {
    if rs == [] then []
    else if rs[0].kind != 3 then Callbacks(rs[1..])
    else
      var m := DecodePublish(rs[0].body);
      if m.None? then [] else [m.value] + Callbacks(rs[1..])
  }

  datatype Outgoing = Outgoing(message: Message, qos: int)

  function NextPid(pid: nat, qos: int): nat {
    if qos > 0 then (pid + 1) % 0x1_0000 else pid
  }

  /** The client's packet-id counter and the bytes it has sent. */
  class Publisher {
    var connected: bool
    var pidCounter: nat
    var sent: bytes

    ghost predicate Valid()
      reads this
    {
      pidCounter < 0x1_0000
    }

    constructor ()
      ensures Valid() && pidCounter == 1 && sent == [] && connected
    {
      connected, pidCounter, sent := true, 1, [];
    }

    method Publish(m: Message, qos: int) returns (status: StatusCode)
      requires Valid()
      modifies this
      ensures Valid() && connected == old(connected)
      ensures status == if old(connected) then OK else COMM_DISCONNECTED
      ensures !old(connected) ==> unchanged(this)
      ensures old(connected) ==>
        && sent == old(sent) + Frame(PublishPacket(old(pidCounter), m, qos))
        && pidCounter == NextPid(old(pidCounter), qos)
    {
      if !connected {
        return COMM_DISCONNECTED;
      }
      var v := EncodeString(m.topic);
      if qos > 0 {
        var pid := pidCounter;
        pidCounter := (pidCounter + 1) % 0x1_0000;
        v := v + [pid / 256, pid % 256];
      }
      v := v + m.payload;
      assert v == PublishBody(old(pidCounter), m, qos);
      var length := EncodeLength(|v| % WORD);
      sent := sent + ([PublishHeader(qos)] + length + v);
      return OK;
    }
  }

  /** The packets a sequence of publish calls puts on the wire, counter included. */
  function Published(pid: nat, out: seq<Outgoing>): seq<Packet>
    requires pid < 0x1_0000
    decreases |out|
  {
    if out == [] then []
    else [PublishPacket(pid, out[0].message, out[0].qos)] + Published(NextPid(pid, out[0].qos), out[1..])
  }

  predicate Arrives(o: Outgoing) {
    0 < o.qos && o.qos % 128 < 32 && Fits(o.message.topic)
  }

  predicate Deliverable(out: seq<Outgoing>) {
    forall i :: 0 <= i < |out| ==> Arrives(out[i])
  }

  function Messages(out: seq<Outgoing>): (ms: seq<Message>)
    ensures |ms| == |out| && forall i :: 0 <= i < |ms| ==> ms[i] == out[i].message
  {
    seq(|out|, i requires 0 <= i < |out| => out[i].message)
  }

  lemma DeliverableSplits(out: seq<Outgoing>)
    requires out != []
    ensures Deliverable(out) <==> Arrives(out[0]) && Deliverable(out[1..])
  {
    assert forall i :: 0 < i < |out| ==> out[i] == out[1..][i - 1];
    assert forall i :: 0 <= i < |out[1..]| ==> out[1..][i] == out[i + 1];
  }

  lemma PublishedSplits(pid: nat, out: seq<Outgoing>)
    requires pid < 0x1_0000 && out != []
    ensures var p := PublishPacket(pid, out[0].message, out[0].qos);
      var rest := Published(NextPid(pid, out[0].qos), out[1..]);
      Receipts(Published(pid, out)) == [Received(p.header / 16, p.body)] + Receipts(rest)
  {
  }

  /** One packet in front: its message comes first, or the callbacks are fewer than the packets or begin differently. */
  lemma CallbackInFront(p: Packet, rs: seq<Received>, m: Message, ms: seq<Message>)
    requires |ms| == |rs|
    ensures Callbacks([Received(p.header / 16, p.body)] + rs) == [m] + ms <==>
            Delivered(p) == Some(m) && Callbacks(rs) == ms
  {
    var all := [Received(p.header / 16, p.body)] + rs;
    assert all[1..] == rs;
    if p.header / 16 == 3 && DecodePublish(p.body).Some? {
      assert ([DecodePublish(p.body).value] + Callbacks(rs))[1..] == Callbacks(rs) && ([m] + ms)[1..] == ms;
    }
  }

  /**
    What is published reaches the other side's callback unchanged, in order and without anything
    else, if and only if every message is deliverable.
   */
  lemma {:induction false} PublishedArriveIff(pid: nat, out: seq<Outgoing>)
    requires pid < 0x1_0000
    ensures Callbacks(Receipts(Published(pid, out))) == Messages(out) <==> Deliverable(out)
    decreases |out|
  {
    if out != [] {
      var first, next := out[0], NextPid(pid, out[0].qos);
      var p := PublishPacket(pid, first.message, first.qos);
      PublishedSplits(pid, out);
      PublishRoundTrip(pid, first.message, first.qos);
      PublishedArriveIff(next, out[1..]);
      PublishedLength(next, out[1..]);
      CallbackInFront(p, Receipts(Published(next, out[1..])), first.message, Messages(out[1..]));
      DeliverableSplits(out);
      assert Messages(out) == [first.message] + Messages(out[1..]);
    }
  }

  lemma {:induction false} PublishedLength(pid: nat, out: seq<Outgoing>)
    requires pid < 0x1_0000
    ensures |Published(pid, out)| == |out|
    decreases |out|
  {
    if out != [] {
      PublishedLength(NextPid(pid, out[0].qos), out[1..]);
    }
  }

  /** How many of the messages take a packet id. */
  function Numbered(out: seq<Outgoing>): nat {
    if out == [] then 0 else (if out[0].qos > 0 then 1 else 0) + Numbered(out[1..])
  }

  /** Packet ids count the messages above QoS 0, modulo 2^16, from where the counter stands. */
  lemma {:induction false} PacketIdsCount(pid: nat, out: seq<Outgoing>, i: nat)
    requires pid < 0x1_0000 && i < |out|
    ensures i < |Published(pid, out)|
    ensures Published(pid, out)[i] ==
            PublishPacket((pid + Numbered(out[..i])) % 0x1_0000, out[i].message, out[i].qos)
    decreases |out|
  {
    var first, rest, next := out[0], out[1..], NextPid(pid, out[0].qos);
    if i == 0 {
      assert out[..0] == [];
    } else {
      PacketIdsCount(next, rest, i - 1);
      NumberedCons(out, i);
      CountOn(pid, if first.qos > 0 then 1 else 0, Numbered(rest[..i - 1]));
    }
  }

  lemma {:induction false} NumberedCons(out: seq<Outgoing>, i: nat)
    requires 0 < i <= |out|
    ensures Numbered(out[..i]) == (if out[0].qos > 0 then 1 else 0) + Numbered(out[1..][..i - 1])
  {
    assert out[..i][0] == out[0] && out[..i][1..] == out[1..][..i - 1];
  }

  lemma CountOn(pid: nat, one: nat, more: nat)
    requires pid < 0x1_0000 && one <= 1
    ensures ((pid + one) % 0x1_0000 + more) % 0x1_0000 == (pid + (one + more)) % 0x1_0000
  {
  }

  /** Fewer packets make fewer callbacks, in the same order. */
  lemma {:induction false} CallbacksOfPrefix(rs: seq<Received>, all: seq<Received>)
    requires rs <= all
    ensures Callbacks(rs) <= Callbacks(all)
    decreases |rs|
  {
    if rs != [] {
      CallbacksOfPrefix(rs[1..], all[1..]);
    }
  }

  lemma WireCons(p: Packet, ps: seq<Packet>)
    ensures Wire([p] + ps) == Frame(p) + Wire(ps)
  {
    assert ([p] + ps)[1..] == ps;
  }

  lemma Associative(a: bytes, b: bytes, c: bytes)
    ensures a + (b + c) == a + b + c
  {
  }

  lemma WireStep(pid: nat, out: seq<Outgoing>, sent: bytes)
    requires pid < 0x1_0000 && out != []
    ensures sent + Wire(Published(pid, out)) ==
            sent + Frame(PublishPacket(pid, out[0].message, out[0].qos)) +
                Wire(Published(NextPid(pid, out[0].qos), out[1..]))
  {
    var p, rest := PublishPacket(pid, out[0].message, out[0].qos), Published(NextPid(pid, out[0].qos), out[1..]);
    WireCons(p, rest);
    Associative(sent, Frame(p), Wire(rest));
  }

  /** One publish call after the other: the frames follow what was sent before. */
  method PublishAll(pub: Publisher, out: seq<Outgoing>)
    requires pub.Valid() && pub.connected
    modifies pub
    ensures pub.Valid() && pub.connected
    ensures pub.sent == old(pub.sent) + Wire(Published(old(pub.pidCounter), out))
  {
    for i := 0 to |out|
      invariant pub.Valid() && pub.connected
      invariant pub.sent + Wire(Published(pub.pidCounter, out[i..])) ==
          old(pub.sent) + Wire(Published(old(pub.pidCounter), out))
    {
      assert out[i..][0] == out[i] && out[i..][1..] == out[i + 1..];
      WireStep(pub.pidCounter, out[i..], pub.sent);
      var _ := pub.Publish(out[i].message, out[i].qos);
    }
  }

  /**
    publish on one side, any chunking in between, the receive loop on the other. On a sound link
    the callback gets the messages unchanged and in order if and only if all are deliverable; on a
    flaky one, deliverable messages arrive as a prefix.
   */
  method EndToEnd(pub: Publisher, out: seq<Outgoing>, flaky: bool) returns (called: seq<Message>)
    requires pub.Valid() && pub.connected && Sendable(Published(pub.pidCounter, out))
    modifies pub
    ensures Deliverable(out) ==> called <= Messages(out)
    ensures !flaky ==> (called == Messages(out) <==> Deliverable(out))
  {
    ghost var ps := Published(pub.pidCounter, out);
    var start := |pub.sent|;
    PublishAll(pub, out);
    assert pub.sent[start..] == Wire(ps);
    var link := new Link(pub.sent[start..], flaky);
    ReadAllOfWire(ps);
    PublishedArriveIff(old(pub.pidCounter), out);
    var packets := link.ReceiveLoop();
    CallbacksOfPrefix(packets, Receipts(ps));
    called := Callbacks(packets);
  }
}
