/** One log line: its level, its JSON text, and what a reader of the format gets back from it. */
module LogLines {
  import opened Common

  datatype Level = DEBUG | INFO | WARN | ERROR

  function Rank(l: Level): nat {
    match l case DEBUG => 0 case INFO => 1 case WARN => 2 case ERROR => 3
  }

  function LevelName(l: Level): string {
    match l case DEBUG => "DEBUG" case INFO => "INFO" case WARN => "WARN" case ERROR => "ERROR"
  }

  /** The levels in order, without their ranks. */
  predicate Passes(level: Level, minLevel: Level) {
    level == minLevel || minLevel == DEBUG || level == Level.ERROR || (minLevel == INFO && level == WARN)
  }

  lemma PassesByRank(level: Level, minLevel: Level)
    ensures Passes(level, minLevel) <==> Rank(level) >= Rank(minLevel)
  {
  }

  function EscapeChar(c: char): string {
    if c == '"' then "\\\""
    else if c == '\\' then "\\\\"
    else if c == '\n' then "\\n"
    else if c == '\r' then "\\r"
    else if c == '\t' then "\\t"
    else [c]
  }

  function JsonEscape(s: string): (r: string)
    ensures '\n' !in r
  {
    if s == [] then [] else EscapeChar(s[0]) + JsonEscape(s[1..])
  }

  datatype Entry = Entry(level: Level, timestamp: string, source: string, msg: string, traceId: string)

  /** A key with its opening quote, the text, the closing quote, and the rest of the record. */
  function Quoted(key: string, text: string, rest: string): string {
    key + (text + ("\"" + rest))
  }

  function TraceTail(traceId: string): string {
    if traceId == "" then "}\n" else Quoted(",\"trace_id\":\"", JsonEscape(traceId), "}\n")
  }

  function Line(e: Entry): (s: string)
    ensures s != []
  {
    Quoted("{\"ts\":\"", e.timestamp,
           Quoted(",\"level\":\"", LevelName(e.level),
                  Quoted(",\"module\":\"", JsonEscape(e.source),
                         Quoted(",\"msg\":\"", JsonEscape(e.msg), TraceTail(e.traceId)))))
  }

  // ---------------------------------------------------------------- what a line says

  /** A JSON reader inside a string: the text up to the closing quote, and what follows it. */
  function ReadQuoted(s: string): Option<(string, string)> {
    if s == "" then None
    else if s[0] == '"' then Some(("", s[1..]))
    else if s[0] != '\\' then Prefixed(s[0], ReadQuoted(s[1..]))
    else if |s| == 1 then None
    else
      var c := s[1];
      var plain := if c == 'n' then '\n' else if c == 'r' then '\r' else if c == 't' then '\t' else c;
      Prefixed(plain, ReadQuoted(s[2..]))
  }

  function Prefixed(c: char, r: Option<(string, string)>): Option<(string, string)> {
    if r.None? then None else Some(([c] + r.value.0, r.value.1))
  }

  lemma ReadEscaped(c: char, rest: string)
    ensures ReadQuoted(EscapeChar(c) + rest) == Prefixed(c, ReadQuoted(rest))
  {
    var s := EscapeChar(c) + rest;
    if |EscapeChar(c)| == 2 {
      assert s[0] == '\\' && s[1] == EscapeChar(c)[1] && s[2..] == rest;
    } else {
      assert s[0] == c && s[1..] == rest;
    }
  }

  lemma Regroup(a: string, b: string, c: string)
    ensures a + b + c == a + (b + c)
  {
  }

  /** An escaped text in quotes reads back as the text, whatever follows. */
  lemma {:induction false} EscapeRoundTrip(text: string, rest: string)
    ensures ReadQuoted(JsonEscape(text) + ("\"" + rest)) == Some((text, rest))
  {
    var end := "\"" + rest;
    if text == "" {
      assert JsonEscape(text) + end == end;
      assert end[0] == '"' && end[1..] == rest;
    } else {
      EscapeRoundTrip(text[1..], rest);
      ReadEscaped(text[0], JsonEscape(text[1..]) + end);
      Regroup(EscapeChar(text[0]), JsonEscape(text[1..]), end);
      assert [text[0]] + text[1..] == text;
    }
  }

  function Expect(prefix: string, s: string): Option<string> {
    if prefix <= s then Some(s[|prefix|..]) else None
  }

  /** A key of the record and its text value; None when the record does not go on that way. */
  function ReadField(key: string, s: string): Option<(string, string)> {
    var r := Expect(key, s);
    if r.None? then None else ReadQuoted(r.value)
  }

  lemma ReadFieldOf(key: string, text: string, rest: string)
    ensures ReadField(key, Quoted(key, JsonEscape(text), rest)) == Some((text, rest))
  {
    var s := Quoted(key, JsonEscape(text), rest);
    assert s[|key|..] == JsonEscape(text) + ("\"" + rest);
    EscapeRoundTrip(text, rest);
  }

  /** The fields of a line in their order; the trace id is optional. */
  datatype Reading = Reading(timestamp: string, level: string, source: string, msg: string, traceId: string)

  /** One field after the other, for a list of keys. */
  function ReadFields(keys: seq<string>, s: string): Option<(seq<string>, string)> {
    if keys == [] then Some(([], s))
    else
      var first := ReadField(keys[0], s);
      if first.None? then None
      else
        var rest := ReadFields(keys[1..], first.value.1);
        if rest.None? then None else Some(([first.value.0] + rest.value.0, rest.value.1))
  }

  const KEYS: seq<string> := ["{\"ts\":\"", ",\"level\":\"", ",\"module\":\"", ",\"msg\":\""]

  function ReadLine(s: string): Option<Reading> {
    var r := ReadFields(KEYS, s);
    if r.None? || |r.value.0| != 4 then None
    else
      var f, rest := r.value.0, r.value.1;
      if rest == "}\n" then Some(Reading(f[0], f[1], f[2], f[3], ""))
      else
        var trace := ReadField(",\"trace_id\":\"", rest);
        if trace.None? || trace.value.1 != "}\n" then None else Some(Reading(f[0], f[1], f[2], f[3], trace.value.0))
  }

  /** The fields written one after the other. */
  function WriteFields(keys: seq<string>, texts: seq<string>, rest: string): string
    requires |keys| == |texts|
  {
    if keys == [] then rest else Quoted(keys[0], JsonEscape(texts[0]), WriteFields(keys[1..], texts[1..], rest))
  }

  lemma {:induction false} ReadFieldsOf(keys: seq<string>, texts: seq<string>, rest: string)
    requires |keys| == |texts|
    ensures ReadFields(keys, WriteFields(keys, texts, rest)) == Some((texts, rest))
  {
    if keys != [] {
      ReadFieldsOf(keys[1..], texts[1..], rest);
      ReadFieldOf(keys[0], texts[0], WriteFields(keys[1..], texts[1..], rest));
      assert [texts[0]] + texts[1..] == texts;
    }
  }

  /** Time stamps are printed as they are, so they must need no escaping. */
  predicate Plain(s: string) {
    forall i :: 0 <= i < |s| ==> EscapeChar(s[i]) == [s[i]]
  }

  lemma {:induction false} PlainIsEscaped(s: string)
    requires Plain(s)
    ensures JsonEscape(s) == s
  {
    if s != "" {
      PlainIsEscaped(s[1..]);
      assert [s[0]] + s[1..] == s;
    }
  }

  lemma {:induction false} LineIsFields(e: Entry)
    requires Plain(e.timestamp)
    ensures Line(e) == WriteFields(KEYS, [e.timestamp, LevelName(e.level), e.source, e.msg], TraceTail(e.traceId))
  {
    PlainIsEscaped(e.timestamp);
    LevelIsPlain(e.level);
    FourFields("{\"ts\":\"", ",\"level\":\"", ",\"module\":\"", ",\"msg\":\"",
               e.timestamp, LevelName(e.level), e.source, e.msg, TraceTail(e.traceId));
  }

  lemma LevelIsPlain(level: Level)
    ensures JsonEscape(LevelName(level)) == LevelName(level)
  {
    PlainIsEscaped(LevelName(level));
  }

  lemma {:induction false} FourFields(k0: string, k1: string, k2: string, k3: string,
                                      t0: string, t1: string, t2: string, t3: string, rest: string)
    ensures WriteFields([k0, k1, k2, k3], [t0, t1, t2, t3], rest) ==
      Quoted(k0, JsonEscape(t0),
             Quoted(k1, JsonEscape(t1), Quoted(k2, JsonEscape(t2), Quoted(k3, JsonEscape(t3), rest))))
  {
    WriteCons(k0, t0, [k1, k2, k3], [t1, t2, t3], rest);
    WriteCons(k1, t1, [k2, k3], [t2, t3], rest);
    WriteCons(k2, t2, [k3], [t3], rest);
    WriteCons(k3, t3, [], [], rest);
    assert [k0] + [k1, k2, k3] == [k0, k1, k2, k3] && [t0] + [t1, t2, t3] == [t0, t1, t2, t3];
    assert [k1] + [k2, k3] == [k1, k2, k3] && [t1] + [t2, t3] == [t1, t2, t3];
    assert [k2] + [k3] == [k2, k3] && [t2] + [t3] == [t2, t3];
    assert [k3] + [] == [k3] && [t3] + [] == [t3];
  }

  lemma {:induction false} WriteCons(key: string, text: string, keys: seq<string>, texts: seq<string>, rest: string)
    requires |keys| == |texts|
    ensures WriteFields([key] + keys, [text] + texts, rest) ==
            Quoted(key, JsonEscape(text), WriteFields(keys, texts, rest))
  {
    assert ([key] + keys)[1..] == keys && ([text] + texts)[1..] == texts;
  }

  /** A reader of the format gets back time, level, module, message and trace id exactly as logged. */
  lemma {:induction false} LineReadsBack(e: Entry)
    requires Plain(e.timestamp)
    ensures ReadLine(Line(e)) == Some(Reading(e.timestamp, LevelName(e.level), e.source, e.msg, e.traceId))
  {
    LineIsFields(e);
    ReadFieldsOf(KEYS, [e.timestamp, LevelName(e.level), e.source, e.msg], TraceTail(e.traceId));
    TailReads(e.traceId);
  }

  lemma TailReads(traceId: string)
    ensures TraceTail(traceId) == "}\n" <==> traceId == ""
    ensures traceId != "" ==> ReadField(",\"trace_id\":\"", TraceTail(traceId)) == Some((traceId, "}\n"))
  {
    if traceId != "" {
      ReadFieldOf(",\"trace_id\":\"", traceId, "}\n");
      assert TraceTail(traceId)[0] == ',';
    }
  }

  /** The name of a level says which it is. */
  lemma LevelNames(level: Level)
    ensures LevelName(level) == "DEBUG" <==> level == DEBUG
    ensures LevelName(level) == "INFO" <==> level == INFO
    ensures LevelName(level) == "WARN" <==> level == WARN
    ensures LevelName(level) == "ERROR" <==> level == Level.ERROR
  {
  }
}
