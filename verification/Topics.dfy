/** MQTT topics: parsing what arrives, printing what is sent, and what the subscriptions let in. */
module Topics {

  predicate NoSlash(s: string) {
    forall i :: 0 <= i < |s| ==> s[i] != '/'
  }

  function SlashAt(s: string): (i: nat)
    ensures i <= |s| && (i < |s| ==> s[i] == '/')
    ensures forall j :: 0 <= j < i ==> s[j] != '/'
  {
    if s == [] then 0 else if s[0] == '/' then 0 else 1 + SlashAt(s[1..])
  }

  /** Repeated getline on '/': a text that ends in '/' has no empty last segment. */
  function Segments(s: string): (parts: seq<string>)
    ensures forall i :: 0 <= i < |parts| ==> NoSlash(parts[i])
    decreases |s|
  {
    if s == [] then []
    else
      var k := SlashAt(s);
      if k == |s| then [s] else [s[..k]] + Segments(s[k + 1..])
  }

  datatype ParsedTopic = ParsedTopic(tenantId: string, deviceId: string, messageType: string, command: string,
                                     valid: bool)

  function At(parts: seq<string>, i: nat): string {
    if i < |parts| then parts[i] else ""
  }

  function FromSegments(parts: seq<string>): ParsedTopic {
    if |parts| < 3 then ParsedTopic("", "", "", "", false)
    else
      var prefixed := parts[0] == "$T" && |parts| >= 5;
      var offset := if prefixed then 2 else 0;
      var device, kind := At(parts, offset), At(parts, offset + 2);
      ParsedTopic(if prefixed then parts[1] else "", device, kind, At(parts, offset + 3),
                  At(parts, offset + 1) == "v1" && device != "" && kind != "")
  }

  function Parse(topic: string): ParsedTopic {
    FromSegments(Segments(topic))
  }

  /** The getline loop: each turn takes the text up to the next '/'. */
  method Split(topic: string) returns (parts: seq<string>)
    ensures parts == Segments(topic)
  {
    parts := [];
    var rest := topic;
    while rest != ""
      invariant parts + Segments(rest) == Segments(topic)
      decreases |rest|
    {
      var k := SlashAt(rest);
      if k == |rest| {
        parts, rest := parts + [rest], "";
      } else {
        parts, rest := parts + [rest[..k]], rest[k + 1..];
      }
    }
  }

  method ParseTopic(topic: string) returns (pt: ParsedTopic)
    ensures pt == Parse(topic)
  {
    var parts := Split(topic);
    if |parts| < 3 {
      return ParsedTopic("", "", "", "", false);
    }
    var offset, tenant := 0, "";
    if parts[0] == "$T" && |parts| >= 5 {
      tenant, offset := parts[1], 2;
    }
    var device, kind, version := At(parts, offset), At(parts, offset + 2), At(parts, offset + 1);
    pt := ParsedTopic(tenant, device, kind, At(parts, offset + 3), version == "v1" && device != "" && kind != "");
  }

  function Tail(kind: string, sub: string): string {
    kind + if sub != "" then "/" + sub else ""
  }

  function Downlink(tenant: string, device: string, kind: string, sub: string): string {
    var t := if tenant == "" then "default" else tenant;
    "$T" + ("/" + (t + ("/" + (device + ("/" + ("v1" + ("/" + Tail(kind, sub))))))))
  }

  // ---------------------------------------------------------------- round trip

  lemma SlashAfter(a: string, rest: string)
    requires NoSlash(a)
    ensures SlashAt(a + ("/" + rest)) == |a|
  {
    var s := a + ("/" + rest);
    assert s[|a|] == '/' && forall i :: 0 <= i < |a| ==> s[i] == a[i];
  }

  lemma FirstSegment(a: string, rest: string)
    requires NoSlash(a)
    ensures Segments(a + ("/" + rest)) == [a] + Segments(rest)
  {
    SlashAfter(a, rest);
    var s := a + ("/" + rest);
    assert s[..|a|] == a && s[|a| + 1..] == rest;
  }

  lemma LastSegment(a: string)
    requires NoSlash(a) && a != ""
    ensures Segments(a) == [a]
  {
  }

  lemma FirstTwoSegments(a: string, b: string, rest: string)
    requires NoSlash(a) && NoSlash(b)
    ensures Segments(a + ("/" + (b + ("/" + rest)))) == [a, b] + Segments(rest)
  {
    FirstSegment(b, rest);
    FirstSegment(a, b + ("/" + rest));
  }

  lemma TailSegments(kind: string, sub: string)
    requires kind != "" && NoSlash(kind) && NoSlash(sub)
    ensures Segments(Tail(kind, sub)) == [kind] + (if sub != "" then [sub] else [])
  {
    if sub != "" {
      FirstSegment(kind, sub);
      LastSegment(sub);
    } else {
      assert Tail(kind, sub) == kind;
      LastSegment(kind);
    }
  }

  lemma DownlinkSegments(tenant: string, device: string, kind: string, sub: string)
    requires tenant != "" && kind != ""
    requires NoSlash(tenant) && NoSlash(device) && NoSlash(kind) && NoSlash(sub)
    ensures Segments(Downlink(tenant, device, kind, sub)) ==
            ["$T", tenant] + ([device, "v1"] + Segments(Tail(kind, sub)))
  {
    FirstTwoSegments(device, "v1", Tail(kind, sub));
    FirstTwoSegments("$T", tenant, device + ("/" + ("v1" + ("/" + Tail(kind, sub)))));
  }

  /** A downlink topic parses back to its parts if and only if device and type are given and no part has a slash. */
  lemma DownlinkRoundTrip(tenant: string, device: string, kind: string, sub: string)
    ensures var t := if tenant == "" then "default" else tenant;
      Parse(Downlink(tenant, device, kind, sub)) == ParsedTopic(t, device, kind, sub, true) <==>
      (device != "" && kind != "" && NoSlash(t) && NoSlash(device) && NoSlash(kind) && NoSlash(sub))
  {
    var t := if tenant == "" then "default" else tenant;
    assert Downlink(tenant, device, kind, sub) == Downlink(t, device, kind, sub);
    if device != "" && kind != "" && NoSlash(t) && NoSlash(device) && NoSlash(kind) && NoSlash(sub) {
      ParsesBack(t, device, kind, sub);
    } else {
      PartsHaveNoSlash(Segments(Downlink(tenant, device, kind, sub)));
    }
  }

  lemma {:induction false} ParsesBack(tenant: string, device: string, kind: string, sub: string)
    requires tenant != "" && device != "" && kind != ""
    requires NoSlash(tenant) && NoSlash(device) && NoSlash(kind) && NoSlash(sub)
    ensures Parse(Downlink(tenant, device, kind, sub)) == ParsedTopic(tenant, device, kind, sub, true)
  {
    DownlinkSegments(tenant, device, kind, sub);
    TailSegments(kind, sub);
  }

  lemma PartsHaveNoSlash(parts: seq<string>)
    requires forall i :: 0 <= i < |parts| ==> NoSlash(parts[i])
    ensures var pt := FromSegments(parts);
      NoSlash(pt.tenantId) && NoSlash(pt.deviceId) && NoSlash(pt.messageType) && NoSlash(pt.command)
  {
  }

  // ---------------------------------------------------------------- subscriptions

  /** Topic levels as the broker sees them (section 4.7.1 of MQTT 3.1.1). */
  function Levels(s: string): (parts: seq<string>)
    ensures parts != []
    decreases |s|
  {
    var k := SlashAt(s);
    if k == |s| then [s] else [s[..k]] + Levels(s[k + 1..])
  }

  const SUBSCRIPTIONS: seq<string> := [
    "+/v1/heartbeat",
    "+/v1/event/post",
    "+/v1/event/post_reply",
    "+/v1/property/post",
    "+/v1/property/set_reply",
    "+/v1/ota/progress",
    "+/v1/status"
  ]

  predicate MatchesLevels(asked: seq<string>, levels: seq<string>) {
    |levels| == |asked| && forall i :: 0 <= i < |asked| ==> asked[i] == "+" || asked[i] == levels[i]
  }

  predicate Matches(filter: string, topic: string) {
    MatchesLevels(Levels(filter), Levels(topic))
  }

  /** The message types on_message dispatches. */
  predicate Routed(kind: string) {
    kind == "heartbeat" || kind == "event" || kind == "property" || kind == "ota" || kind == "status"
  }

  lemma {:induction false} LevelsStep(s: string)
    requires SlashAt(s) < |s|
    ensures Levels(s) == [s[..SlashAt(s)]] + Levels(s[SlashAt(s) + 1..])
  {
  }

  lemma LastOfCons(part: string, parts: seq<string>, all: seq<string>)
    requires parts != [] && all == [part] + parts
    ensures all[|all| - 1] == parts[|parts| - 1]
  {
  }

  lemma {:induction false} SegmentsAreLevels(s: string)
    requires Levels(s)[|Levels(s)| - 1] != ""
    ensures Segments(s) == Levels(s)
    decreases |s|
  {
    var k := SlashAt(s);
    if k < |s| {
      var rest := s[k + 1..];
      LevelsStep(s);
      LastOfCons(s[..k], Levels(rest), Levels(s));
      SegmentsAreLevels(rest);
    }
  }

  /** The levels after the device name, subscription by subscription. */
  function Asked(k: nat): seq<string>
    requires k < 7
  {
    if k == 0 then ["v1", "heartbeat"]
    else if k == 1 then ["v1", "event", "post"]
    else if k == 2 then ["v1", "event", "post_reply"]
    else if k == 3 then ["v1", "property", "post"]
    else if k == 4 then ["v1", "property", "set_reply"]
    else if k == 5 then ["v1", "ota", "progress"]
    else ["v1", "status"]
  }

  function Join(parts: seq<string>): string
    requires parts != []
  {
    if |parts| == 1 then parts[0] else parts[0] + ("/" + Join(parts[1..]))
  }

  predicate NoSlashes(parts: seq<string>) {
    forall i :: 0 <= i < |parts| ==> NoSlash(parts[i])
  }

  lemma {:induction false} JoinCons(part: string, parts: seq<string>)
    requires parts != []
    ensures Join([part] + parts) == part + ("/" + Join(parts))
  {
    assert ([part] + parts)[1..] == parts;
  }

  lemma {:induction false} LevelsCons(part: string, rest: string)
    requires NoSlash(part)
    ensures Levels(part + ("/" + rest)) == [part] + Levels(rest)
  {
    var s := part + ("/" + rest);
    SlashAfter(part, rest);
    LevelsStep(s);
    assert s[..|part|] == part && s[|part| + 1..] == rest;
  }

  lemma {:induction false} LevelsOfOne(part: string)
    requires NoSlash(part)
    ensures Levels(part) == [part]
  {
  }

  lemma {:induction false} LevelsOfJoin(parts: seq<string>)
    requires parts != [] && NoSlashes(parts)
    ensures Levels(Join(parts)) == parts
  {
    var first, rest := parts[0], parts[1..];
    if rest == [] {
      LevelsOfOne(first);
    } else {
      LevelsOfJoin(rest);
      JoinCons(first, rest);
      LevelsCons(first, Join(rest));
      assert [first] + rest == parts;
    }
  }

  lemma NoSlashesCons(part: string, parts: seq<string>)
    requires NoSlash(part) && NoSlashes(parts)
    ensures NoSlashes([part] + parts)
  {
  }

  lemma SplitAt(s: string, k: nat)
    requires k < |s| && s[k] == '/'
    ensures s == s[..k] + ("/" + s[k + 1..])
  {
    assert s[k..] == [s[k]] + s[k + 1..];
    assert s == s[..k] + s[k..];
  }

  lemma {:induction false} JoinOfLevels(s: string)
    ensures NoSlashes(Levels(s)) && Join(Levels(s)) == s
    decreases |s|
  {
    var k := SlashAt(s);
    if k < |s| {
      var first, rest := s[..k], s[k + 1..];
      LevelsStep(s);
      JoinOfLevels(rest);
      SplitAt(s, k);
      NoSlashesCons(first, Levels(rest));
      JoinCons(first, Levels(rest));
    }
  }

  lemma SubscriptionLevels(k: nat)
    requires k < 7
    ensures |SUBSCRIPTIONS| == 7 && Levels(SUBSCRIPTIONS[k]) == ["+"] + Asked(k)
  {
    SubscriptionText(k);
    AskedHasNoSlash(k);
    LevelsOfText(SUBSCRIPTIONS[k], ["+"] + Asked(k));
  }

  lemma {:induction false} LevelsOfText(text: string, parts: seq<string>)
    requires parts != [] && NoSlashes(parts) && text == Join(parts)
    ensures Levels(text) == parts
  {
    LevelsOfJoin(parts);
  }

  lemma {:induction false} SubscriptionText(k: nat)
    requires k < 7
    ensures |SUBSCRIPTIONS| == 7 && Join(["+"] + Asked(k)) == SUBSCRIPTIONS[k]
  {
    JoinThree("+", Asked(k));
    if k < 3 {
      FirstTexts(k);
    } else {
      LastTexts(k);
    }
  }

  lemma {:induction false} FirstTexts(k: nat)
    requires k < 3
    ensures SUBSCRIPTIONS[k] ==
      "+" + ("/" + ("v1" + ("/" + if |Asked(k)| == 2 then Asked(k)[1] else Asked(k)[1] + ("/" + Asked(k)[2]))))
  {
    assert "+" + ("/" + ("v1" + ("/" + "heartbeat"))) == "+/v1/heartbeat";
    assert "+" + ("/" + ("v1" + ("/" + ("event" + ("/" + "post"))))) == "+/v1/event/post";
    assert "+" + ("/" + ("v1" + ("/" + ("event" + ("/" + "post_reply"))))) == "+/v1/event/post_reply";
  }

  lemma {:induction false} LastTexts(k: nat)
    requires 3 <= k < 7
    ensures SUBSCRIPTIONS[k] ==
      "+" + ("/" + ("v1" + ("/" + if |Asked(k)| == 2 then Asked(k)[1] else Asked(k)[1] + ("/" + Asked(k)[2]))))
  {
    assert "+" + ("/" + ("v1" + ("/" + ("property" + ("/" + "post"))))) == "+/v1/property/post";
    assert "+" + ("/" + ("v1" + ("/" + ("property" + ("/" + "set_reply"))))) == "+/v1/property/set_reply";
    assert "+" + ("/" + ("v1" + ("/" + ("ota" + ("/" + "progress"))))) == "+/v1/ota/progress";
    assert "+" + ("/" + ("v1" + ("/" + "status"))) == "+/v1/status";
  }

  lemma JoinThree(first: string, rest: seq<string>)
    requires 2 <= |rest| <= 3
    ensures Join([first] + rest) ==
      first + ("/" + (rest[0] + ("/" + if |rest| == 2 then rest[1] else rest[1] + ("/" + rest[2]))))
  {
    var all := [first] + rest;
    assert all[1..] == rest;
    assert Join(rest) == rest[0] + ("/" + Join(rest[1..]));
    if |rest| == 2 {
      assert rest[1..] == [rest[1]];
    } else {
      assert rest[1..] == [rest[1], rest[2]] && rest[1..][1..] == [rest[2]];
    }
  }

  lemma {:induction false} AskedHasNoSlash(k: nat)
    requires k < 7
    ensures NoSlashes(Asked(k)) && 2 <= |Asked(k)| <= 3
    ensures Asked(k)[0] == "v1" && forall i :: 0 <= i < |Asked(k)| ==> Asked(k)[i] != "+" && Asked(k)[i] != ""
  {
  }

  /** A single "+" in front fixes every level but the first. */
  lemma PlusMatches(asked: seq<string>, levels: seq<string>)
    requires forall i :: 0 <= i < |asked| ==> asked[i] != "+"
    ensures MatchesLevels(["+"] + asked, levels) <==> levels != [] && levels[1..] == asked
  {
    var filter := ["+"] + asked;
    assert forall i :: 0 < i < |filter| ==> filter[i] == asked[i - 1];
    if levels != [] && levels[1..] == asked {
      assert forall i :: 0 < i < |levels| ==> levels[i] == asked[i - 1];
    }
    if MatchesLevels(filter, levels) {
      assert forall i :: 0 <= i < |asked| ==> levels[1..][i] == filter[i + 1];
    }
  }

  lemma MatchedIff(k: nat, topic: string)
    requires k < 7
    ensures |SUBSCRIPTIONS| == 7
    ensures Matches(SUBSCRIPTIONS[k], topic) <==> Levels(topic)[1..] == Asked(k)
  {
    SubscriptionLevels(k);
    AskedHasNoSlash(k);
    PlusMatches(Asked(k), Levels(topic));
  }

  lemma {:induction false} MatchedText(asked: seq<string>, topic: string)
    requires asked != [] && Levels(topic)[1..] == asked
    ensures var device := Levels(topic)[0]; NoSlash(device) && topic == device + ("/" + Join(asked))
  {
    JoinOfLevels(topic);
  }

  lemma {:induction false} TextMatches(asked: seq<string>, device: string)
    requires asked != [] && NoSlash(device) && NoSlashes(asked)
    ensures Levels(device + ("/" + Join(asked))) == [device] + asked
  {
    var all := [device] + asked;
    assert all[1..] == asked;
    LevelsOfJoin(all);
  }

  /** The subscriptions let in exactly the seven device topics, for every device name without a slash. */
  lemma {:induction false} SubscribedIff(k: nat, topic: string)
    requires k < 7
    ensures |SUBSCRIPTIONS| == 7
    ensures Matches(SUBSCRIPTIONS[k], topic) <==>
            exists device :: NoSlash(device) && topic == device + ("/" + Join(Asked(k)))
  {
    MatchedIff(k, topic);
    AskedHasNoSlash(k);
    if Levels(topic)[1..] == Asked(k) {
      MatchedText(Asked(k), topic);
    }
    if device :| NoSlash(device) && topic == device + ("/" + Join(Asked(k))) {
      TextMatches(Asked(k), device);
    }
  }

  /** Every type the router dispatches is asked for by some subscription. */
  lemma RoutedTypesAreSubscribed(kind: string)
    ensures Routed(kind) <==> exists k: nat :: k < 7 && Asked(k)[1] == kind
  {
    assert Asked(0)[1] == "heartbeat" && Asked(1)[1] == "event" && Asked(3)[1] == "property";
    assert Asked(5)[1] == "ota" && Asked(6)[1] == "status";
  }

  /** Whatever a subscription lets in is dispatched for the device named first, unless that name is empty. */
  lemma SubscribedTopicsAreRouted(k: nat, topic: string)
    requires k < |SUBSCRIPTIONS| && Matches(SUBSCRIPTIONS[k], topic)
    ensures var pt := Parse(topic);
      && pt.deviceId == Levels(topic)[0] && pt.tenantId == ""
      && Routed(pt.messageType)
      && (pt.valid <==> Levels(topic)[0] != "")
  {
    MatchedIff(k, topic);
    AskedHasNoSlash(k);
    assert Levels(topic) == [Levels(topic)[0]] + Asked(k);
    RoutedTypesAreSubscribed(Asked(k)[1]);
    SegmentsAreLevels(topic);
  }

  // ---------------------------------------------------------------- what the parts mean

  lemma {:induction false} SegmentsOfJoin(parts: seq<string>)
    requires parts != [] && NoSlashes(parts) && parts[|parts| - 1] != ""
    ensures Segments(Join(parts)) == parts
  {
    LevelsOfJoin(parts);
    SegmentsAreLevels(Join(parts));
  }

  /** A topic without the broker prefix: device, version, type and, if there is more, the command. */
  lemma PlainTopic(parts: seq<string>)
    requires |parts| >= 3 && NoSlashes(parts) && parts[0] != "$T" && parts[|parts| - 1] != ""
    ensures Parse(Join(parts)) ==
      ParsedTopic("", parts[0], parts[2], if |parts| == 3 then "" else parts[3],
                  parts[1] == "v1" && parts[0] != "" && parts[2] != "")
  {
    SegmentsOfJoin(parts);
    PlainParts(parts);
  }

  lemma PlainParts(parts: seq<string>)
    requires |parts| >= 3 && parts[0] != "$T"
    ensures FromSegments(parts) ==
      ParsedTopic("", parts[0], parts[2], if |parts| == 3 then "" else parts[3],
                  parts[1] == "v1" && parts[0] != "" && parts[2] != "")
  {
  }

  /** A topic of fewer than three segments is invalid, whatever it says. */
  lemma ShortTopic(topic: string)
    requires |Segments(topic)| < 3
    ensures Parse(topic) == ParsedTopic("", "", "", "", false)
  {
  }
}
