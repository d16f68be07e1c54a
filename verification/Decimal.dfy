/** `std::to_string` on integers and `std::stoi` / `std::stoll` on strings. */
module Decimal {
  import opened Common

  predicate IsDigit(c: char) {
    '0' <= c <= '9'
  }

  predicate AllDigits(s: string) {
    forall i :: 0 <= i < |s| ==> IsDigit(s[i])
  }

  function ToString(n: nat): (s: string)
    ensures s != [] && AllDigits(s)
  {
    if n < 10 then ['0' + n as char] else ToString(n / 10) + ['0' + (n % 10) as char]
  }

  /** The number a digit string denotes. */
  function Value(s: string): nat
    requires AllDigits(s)
  {
    if s == [] then 0 else Value(s[..|s| - 1]) * 10 + (s[|s| - 1] - '0') as int
  }

  lemma {:induction false} ValueOfToString(n: nat)
    ensures Value(ToString(n)) == n
  {
    if n >= 10 {
      ValueOfToString(n / 10);
      var s := ToString(n);
      assert s[..|s| - 1] == ToString(n / 10);
    }
  }

  lemma ToStringInjective(m: nat, n: nat)
    requires ToString(m) == ToString(n)
    ensures m == n
  {
    ValueOfToString(m);
    ValueOfToString(n);
  }

  function IntToString(n: int): (s: string)
    ensures s != [] && forall i :: 0 <= i < |s| ==> IsDigit(s[i]) || s[i] == '-'
  {
    if n < 0 then "-" + ToString(-n) else ToString(n)
  }

  lemma {:induction false} NoLeadingZero(n: nat)
    ensures |ToString(n)| > 1 ==> ToString(n)[0] != '0'
    ensures ToString(n) == "0" <==> n == 0
  {
    if n >= 10 {
      NoLeadingZero(n / 10);
      assert ToString(n)[0] == ToString(n / 10)[0];
    }
  }

  /** Digits without a leading zero, and a minus sign exactly for a negative number. */
  lemma PrintedForm(n: int)
    ensures IntToString(n)[0] == '-' <==> n < 0
    ensures var digits := if n < 0 then IntToString(n)[1..] else IntToString(n);
      digits != "" && AllDigits(digits) && (|digits| > 1 ==> digits[0] != '0') && (digits == "0" <==> n == 0)
  {
    NoLeadingZero(if n < 0 then -n else n);
  }

  /** The six characters of isspace in the C locale. */
  lemma SpacesAreSix(c: char)
    ensures IsSpace(c) <==> c == ' ' || c == '\t' || c == '\n' || c == '\U{B}' || c == '\U{C}' || c == '\r'
  {
  }

  predicate IsSpace(c: char) {
    c in " \t\n\r" || c == '\U{B}' || c == '\U{C}'
  }

  function SkipSpaces(s: string): string {
    if s != [] && IsSpace(s[0]) then SkipSpaces(s[1..]) else s
  }

  function LeadingDigits(s: string): (d: string)
    ensures AllDigits(d)
  {
    if s != [] && IsDigit(s[0]) then [s[0]] + LeadingDigits(s[1..]) else []
  }

  /** After the blanks: an optional sign and digits. */
  function ParseSigned(t: string, lo: int, hi: int): Option<int> {
    var negative := t != [] && t[0] == '-';
    var signed := t != [] && (t[0] == '-' || t[0] == '+');
    var digits := LeadingDigits(if signed then t[1..] else t);
    if digits == [] then None
    else
      var v: int := if negative then 0 - Value(digits) else Value(digits);
      if lo <= v <= hi then Some(v) else None
  }

  /** `std::stoi` and `std::stoll` with their ranges; None is a thrown exception. */
  function ParseInt(s: string, lo: int, hi: int): Option<int> {
    ParseSigned(SkipSpaces(s), lo, hi)
  }

  /** Reading stops at the end of the text or at the first character that is no digit. */
  predicate Stops(tail: string) {
    tail == [] || !IsDigit(tail[0])
  }

  lemma {:induction false} LeadingDigitsStop(s: string, tail: string)
    requires AllDigits(s) && Stops(tail)
    ensures LeadingDigits(s + tail) == s
  {
    if s == [] {
      assert s + tail == tail;
    } else {
      LeadingDigitsStop(s[1..], tail);
      assert (s + tail)[1..] == s[1..] + tail;
    }
  }

  /** Reading gives back what was printed, whatever follows it that is no digit. */
  lemma ParseIntOfIntToString(n: int, tail: string, lo: int, hi: int)
    requires lo <= n <= hi && Stops(tail)
    ensures ParseInt(IntToString(n) + tail, lo, hi) == Some(n)
  {
    if n < 0 {
      ParseNegative(n, tail, lo, hi);
    } else {
      ParseNatural(n, tail, lo, hi);
    }
  }

  lemma NothingToSkip(s: string)
    requires s != [] && !IsSpace(s[0])
    ensures SkipSpaces(s) == s
  {
  }

  lemma ParseNegative(n: int, tail: string, lo: int, hi: int)
    requires n < 0 && lo <= n <= hi && Stops(tail)
    ensures ParseInt("-" + ToString(-n) + tail, lo, hi) == Some(n)
  {
    var rest := ToString(-n) + tail;
    ReadDigits(-n, tail);
    var s := "-" + ToString(-n) + tail;
    assert s == ['-'] + rest;
    NothingToSkip(s);
    assert s[0] == '-' && s[1..] == rest;
  }

  lemma ParseNatural(n: nat, tail: string, lo: int, hi: int)
    requires lo <= n <= hi && Stops(tail)
    ensures ParseInt(ToString(n) + tail, lo, hi) == Some(n)
  {
    ReadDigits(n, tail);
    NothingToSkip(ToString(n) + tail);
  }

  lemma ReadDigits(n: nat, tail: string)
    requires Stops(tail)
    ensures LeadingDigits(ToString(n) + tail) == ToString(n) && Value(ToString(n)) == n
    ensures IsDigit((ToString(n) + tail)[0])
  {
    LeadingDigitsStop(ToString(n), tail);
    ValueOfToString(n);
  }

  predicate Spaces(s: string) {
    forall i :: 0 <= i < |s| ==> s[i] in " \t\n\r" || s[i] == '\U{B}' || s[i] == '\U{C}'
  }

  lemma {:induction false} SkipSpacesOf(blank: string, rest: string)
    requires Spaces(blank) && (rest == "" || !IsSpace(rest[0]))
    ensures SkipSpaces(blank + rest) == rest
  {
    if blank == "" {
      assert blank + rest == rest;
    } else {
      SkipSpacesOf(blank[1..], rest);
      assert (blank + rest)[1..] == blank[1..] + rest;
    }
  }

  /** What a sign and digits amount to. */
  function Signed(sign: string, digits: string): int
    requires AllDigits(digits)
  {
    if sign == "-" then 0 - Value(digits) else Value(digits)
  }

  lemma ParseUnsigned(digits: string, tail: string, lo: int, hi: int)
    requires AllDigits(digits) && Stops(tail)
    requires digits == "" ==> tail == "" || (!IsSpace(tail[0]) && tail[0] != '-' && tail[0] != '+')
    ensures var v := Value(digits);
      ParseSigned(digits + tail, lo, hi) == if digits != "" && lo <= v <= hi then Some(v) else None
  {
    LeadingDigitsStop(digits, tail);
    assert digits == "" ==> digits + tail == tail;
  }

  lemma ParseWithSign(sign: char, digits: string, tail: string, lo: int, hi: int)
    requires (sign == '-' || sign == '+') && AllDigits(digits) && Stops(tail)
    ensures var v := Signed([sign], digits);
      ParseSigned([sign] + (digits + tail), lo, hi) == if digits != "" && lo <= v <= hi then Some(v) else None
  {
    LeadingDigitsStop(digits, tail);
    var t := [sign] + (digits + tail);
    assert t[0] == sign && t[1..] == digits + tail;
  }

  /** Blanks, an optional sign, digits and anything else: the digits' value if it is in range, and otherwise a throw. */
  lemma ParseIntReads(blank: string, sign: string, digits: string, tail: string, lo: int, hi: int)
    requires Spaces(blank) && (sign == "" || sign == "+" || sign == "-") && AllDigits(digits) && Stops(tail)
    requires digits == "" ==> sign != "" || tail == "" || (!IsSpace(tail[0]) && tail[0] != '-' && tail[0] != '+')
    ensures var v := Signed(sign, digits);
      ParseInt(blank + (sign + (digits + tail)), lo, hi) == if digits != "" && lo <= v <= hi then Some(v) else None
  {
    if sign == "" {
      assert sign + (digits + tail) == digits + tail;
      ParseUnsigned(digits, tail, lo, hi);
      assert digits == "" ==> digits + tail == tail;
    } else {
      ParseWithSign(sign[0], digits, tail, lo, hi);
    }
    SkipSpacesOf(blank, sign + (digits + tail));
  }
}
