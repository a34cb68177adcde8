/** The date reading behind the date search conditions:
    `boost::gregorian::from_string`, which is Boost.Date_Time's `parse_date`
    in year-month-day order. The text is split into tokens at ',', '-', '.',
    ' ' and '/' (empty tokens dropped). The first three tokens are read as
    the year, the month and the day, and the date constructor then checks
    the ranges: year 1400..9999, month 1..12, and a day that exists in that
    month. Every failure is an exception of Boost's own, not a YAML one. */
module Calendar {
  import opened Common

  /** boost::gregorian::date, as its three fields. */
  datatype CalendarDate = CalendarDate(year: nat, month: nat, day: nat)

  const MinYear: nat := 1400
  const MaxYear: nat := 9999

  /** The Gregorian leap-year rule. */
  predicate IsLeapYear(y: nat) {
    y % 4 == 0 && (y % 100 != 0 || y % 400 == 0)
  }

  function DaysInMonth(y: nat, m: nat): (r: nat)
    requires 1 <= m <= 12
    ensures 28 <= r <= 31
    ensures m == 2 ==> (r == 29 <==> IsLeapYear(y))
  {
    if m == 2 then (if IsLeapYear(y) then 29 else 28)
    else if m == 4 || m == 6 || m == 9 || m == 11 then 30
    else 31
  }

  /** What the date constructor accepts without throwing. */
  predicate ValidDate(d: CalendarDate) {
    && MinYear <= d.year <= MaxYear
    && 1 <= d.month <= 12
    && 1 <= d.day <= DaysInMonth(d.year, d.month)
  }

  // ---------------------------------------------------------------------------
  // Tokens

  /** The dropped delimiters of parse_date's char_separator. */
  predicate IsSeparator(c: char) {
    c == ',' || c == '-' || c == '.' || c == ' ' || c == '/'
  }

  predicate NoSeparator(s: string) {
    forall j :: 0 <= j < |s| ==> !IsSeparator(s[j])
  }

  /** The length of the run of non-separators at the front. */
  function RunLength(s: string): (n: nat)
    ensures n <= |s| && forall j :: 0 <= j < n ==> !IsSeparator(s[j])
    ensures n < |s| ==> IsSeparator(s[n])
  {
    if s == [] || IsSeparator(s[0]) then 0 else 1 + RunLength(s[1..])
  }

  /** boost::tokenizer over char_separator: the maximal runs of
      non-separators, in order; empty tokens are dropped. */
  function Tokens(s: string): (r: seq<string>)
    ensures forall i :: 0 <= i < |r| ==> r[i] != [] && NoSeparator(r[i])
    decreases |s|
  {
    if s == [] then []
    else if IsSeparator(s[0]) then Tokens(s[1..])
    else
      var n := RunLength(s);
      [s[..n]] + Tokens(s[n..])
  }

  /** A token followed by a separator, or by nothing, is cut off whole. */
  lemma TokensLead(t: string, rest: string)
    requires t != [] && NoSeparator(t)
    requires rest == [] || IsSeparator(rest[0])
    ensures Tokens(t + rest) == [t] + Tokens(rest)
  {
    var s := t + rest;
    assert forall j :: 0 <= j < |t| ==> s[j] == t[j];
    assert |t| < |s| ==> s[|t|] == rest[0];
    assert RunLength(s) == |t|;
    assert s[..|t|] == t && s[|t|..] == rest;
  }

  /** A separator in front changes nothing. */
  lemma TokensSkip(c: char, rest: string)
    requires IsSeparator(c)
    ensures Tokens([c] + rest) == Tokens(rest)
  {
    assert ([c] + rest)[1..] == rest;
  }

  // ---------------------------------------------------------------------------
  // Fields

  /** boost::lexical_cast<unsigned short>: an optional sign, then at least one
      decimal digit and nothing else, with a magnitude that fits 16 bits; a
      '-' negates modulo 2^16, as the unsigned conversion does. */
  function CastUShort(t: string): (r: Option<nat>)
    ensures r.Some? ==> r.value < 0x1_0000
    ensures r.Some? ==> t != []
  {
    var digits := if t != [] && (t[0] == '+' || t[0] == '-') then t[1..] else t;
    if digits == [] || exists j :: 0 <= j < |digits| && !IsDigit(digits[j]) then None
    else
      var v := DecimalValue(digits);
      if v >= 0x1_0000 then None
      else if t[0] == '-' then Some((0x1_0000 - v) % 0x1_0000)
      else Some(v)
  }

  /** The month a lower-case name stands for, abbreviated or in full, as
      month_str_to_ushort looks it up; 13, which the month check then
      refuses, when it names none. */
  function MonthOfName(name: string): (m: nat)
    ensures 1 <= m <= 13
  {
    if name == "jan" || name == "january" then 1
    else if name == "feb" || name == "february" then 2
    else if name == "mar" || name == "march" then 3
    else if name == "apr" || name == "april" then 4
    else if name == "may" then 5
    else if name == "jun" || name == "june" then 6
    else if name == "jul" || name == "july" then 7
    else if name == "aug" || name == "august" then 8
    else if name == "sep" || name == "september" then 9
    else if name == "oct" || name == "october" then 10
    else if name == "nov" || name == "november" then 11
    else if name == "dec" || name == "december" then 12
    else 13
  }

  /** month_str_to_ushort: a token starting with a digit is cast as a number,
      any other is looked up by name without regard to case. */
  function MonthNumber(t: string): (r: Option<nat>)
    ensures t != [] && IsDigit(t[0]) ==> r == CastUShort(t)
    ensures t != [] && !IsDigit(t[0]) ==> r == Some(MonthOfName(ToLower(t)))
  {
    if t == [] then None
    else if IsDigit(t[0]) then CastUShort(t)
    else Some(MonthOfName(ToLower(t)))
  }

  /** boost::gregorian::from_string: the date, or None where it throws. */
  function FromString(s: string): (r: Option<CalendarDate>)
    ensures r.Some? ==> ValidDate(r.value)
    ensures r.Some? ==> |Tokens(s)| >= 3
  {
    var toks := Tokens(s);
    if |toks| < 3 then None
    else
      match (CastUShort(toks[0]), MonthNumber(toks[1]), CastUShort(toks[2]))
      case (Some(y), Some(m), Some(d)) =>
        var date := CalendarDate(y, m, d);
        if ValidDate(date) then Some(date) else None
      case _ => None
  }

  // ---------------------------------------------------------------------------
  // Round trip

  /** Two digits, with a leading zero below ten. */
  function Pad2(n: nat): (r: string)
    requires n < 100
    ensures |r| > 0 && forall j :: 0 <= j < |r| ==> IsDigit(r[j])
  {
    if n < 10 then "0" + NatToString(n) else NatToString(n)
  }

  /** The ISO 8601 extended form, YYYY-MM-DD, that to_iso_extended_string
      writes for a valid date. */
  function IsoText(d: CalendarDate): string
    requires ValidDate(d)
  {
    NatToString(d.year) + ("-" + (Pad2(d.month) + ("-" + Pad2(d.day))))
  }

  /** A leading zero does not change a decimal value. */
  lemma {:induction false} LeadingZero(s: string)
    requires forall j :: 0 <= j < |s| ==> IsDigit(s[j])
    ensures forall j :: 0 <= j < |"0" + s| ==> IsDigit(("0" + s)[j])
    ensures DecimalValue("0" + s) == DecimalValue(s)
  {
    if s != [] {
      LeadingZero(s[..|s| - 1]);
      assert ("0" + s)[..|s|] == "0" + s[..|s| - 1];
    }
  }

  /** A number written in decimal casts back to itself when it fits 16
      bits, and fails otherwise. */
  lemma CastNatToString(n: nat)
    ensures CastUShort(NatToString(n)) == if n < 0x1_0000 then Some(n) else None
  {
    NatToStringRoundTrip(n);
  }

  lemma CastPad2(n: nat)
    requires n < 100
    ensures CastUShort(Pad2(n)) == Some(n)
  {
    NatToStringRoundTrip(n);
    if n < 10 {
      LeadingZero(NatToString(n));
    }
  }

  /** Three tokens joined by '-' split back into the same three. */
  lemma ThreeTokens(a: string, b: string, c: string)
    requires a != [] && NoSeparator(a)
    requires b != [] && NoSeparator(b)
    requires c != [] && NoSeparator(c)
    ensures Tokens(a + ("-" + (b + ("-" + c)))) == [a, b, c]
  {
    assert c + [] == c;
    TokensLead(c, []);
    TokensSkip('-', c);
    TokensLead(b, "-" + c);
    TokensSkip('-', b + ("-" + c));
    TokensLead(a, "-" + (b + ("-" + c)));
  }

  /** Every valid date written in ISO extended form reads back as itself. */
  lemma FromStringIso(d: CalendarDate)
    requires ValidDate(d)
    ensures FromString(IsoText(d)) == Some(d)
  {
    var y, m, dd := NatToString(d.year), Pad2(d.month), Pad2(d.day);
    ThreeTokens(y, m, dd);
    CastNatToString(d.year);
    CastPad2(d.month);
    CastPad2(d.day);
  }

  /** A single word, with no separator in it, is not a date. */
  lemma WordIsNoDate(s: string)
    requires s != [] && NoSeparator(s)
    ensures FromString(s) == None
  {
    assert s + [] == s;
    TokensLead(s, []);
  }

  /** The 29th of February exists exactly in leap years. */
  lemma LeapDay(y: nat)
    requires MinYear <= y <= MaxYear
    ensures FromString(NatToString(y) + ("-" + (Pad2(2) + ("-" + Pad2(29))))).Some? <==> IsLeapYear(y)
  {
    ThreeTokens(NatToString(y), Pad2(2), Pad2(29));
    CastNatToString(y);
    CastPad2(2);
    CastPad2(29);
  }

  predicate IsLetter(c: char) { 'a' <= c <= 'z' || 'A' <= c <= 'Z' }

  /** A date whose month is written as a word, as in "2024-Feb-29", reads as
      the month that word names in any case, and is refused when it names
      none. */
  lemma MonthByName(y: nat, name: string, d: nat)
    requires name != [] && forall j :: 0 <= j < |name| ==> IsLetter(name[j])
    requires d < 100
    ensures var r := FromString(NatToString(y) + ("-" + (name + ("-" + Pad2(d)))));
      var date := CalendarDate(y, MonthOfName(ToLower(name)), d);
      (r.Some? <==> ValidDate(date)) && (r.Some? ==> r.value == date)
  {
    ThreeTokens(NatToString(y), name, Pad2(d));
    CastNatToString(y);
    CastPad2(d);
  }
}
