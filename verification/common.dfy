/** Shared vocabulary: optional values, success-or-failure results and the
    handful of string operations the C++ standard library supplies to the
    agent (find, find_first_not_of, to_lower, digit tests, number formatting). */
module Common {

  /** std::optional */
  datatype Option<+T> = None | Some(value: T)

  /** A value or the exception that escaped the computation. */
  datatype Result<+T, +E> = Ok(value: T) | Err(error: E) {
    /** The members that let `:-` propagate an error. */
    predicate IsFailure() { Err? }

    function PropagateFailure<U>(): Result<U, E>
      requires Err?
    {
      Err(error)
    }

    function Extract(): T
      requires Ok?
    {
      value
    }
  }

  /** The values of a run of results, or the first error among them, as a
      loop that stops at the first exception gives it. */
  function AllOk<T, E>(rs: seq<Result<T, E>>): (r: Result<seq<T>, E>)
    ensures r.Ok? <==> forall i :: 0 <= i < |rs| ==> rs[i].Ok?
    ensures r.Ok? ==> |r.value| == |rs| && forall i :: 0 <= i < |rs| ==> rs[i] == Ok(r.value[i])
  {
    if rs == [] then Ok([])
    else match rs[0]
      case Err(e) => Err(e)
      case Ok(v) =>
        match AllOk(rs[1..])
        case Err(e) => Err(e)
        case Ok(rest) => Ok([v] + rest)
  }

  predicate IsDigit(c: char) { '0' <= c <= '9' }

  predicate IsHexLower(c: char) { IsDigit(c) || 'a' <= c <= 'f' }

  /** ASCII lower-casing, as boost::to_lower_copy does in the "C" locale. */
  function LowerChar(c: char): char {
    if 'A' <= c <= 'Z' then (c as int + 32) as char else c
  }

  function ToLower(s: string): (r: string)
    ensures |r| == |s|
    ensures forall i :: 0 <= i < |s| ==> r[i] == LowerChar(s[i])
  {
    if s == [] then [] else [LowerChar(s[0])] + ToLower(s[1..])
  }

  predicate IsPrefix(p: string, s: string) {
    |p| <= |s| && s[..|p|] == p
  }

  predicate IsSuffix(p: string, s: string) {
    |p| <= |s| && s[|s| - |p|..] == p
  }

  /** `sub` occurs in `s` starting at index i. */
  predicate OccursAt(s: string, sub: string, i: int) {
    0 <= i && i + |sub| <= |s| && s[i..i + |sub|] == sub
  }

  /** std::string::find: the first index at which `sub` occurs, None for npos. */
  function Find(s: string, sub: string, from: nat := 0): (r: Option<nat>)
    requires from <= |s|
    ensures r.Some? ==> from <= r.value && OccursAt(s, sub, r.value)
    ensures r.Some? ==> forall j :: from <= j < r.value ==> !OccursAt(s, sub, j)
    ensures r.None? ==> forall j :: from <= j ==> !OccursAt(s, sub, j)
    decreases |s| - from
  {
    if OccursAt(s, sub, from) then Some(from)
    else if from == |s| then None
    else Find(s, sub, from + 1)
  }

  predicate Contains(s: string, sub: string) {
    Find(s, sub).Some?
  }

  lemma ContainsIff(s: string, sub: string)
    ensures Contains(s, sub) <==> exists i :: OccursAt(s, sub, i)
  {
  }

  lemma ContainsAt(s: string, sub: string, i: int)
    requires OccursAt(s, sub, i)
    ensures Contains(s, sub)
  {
    ContainsIff(s, sub);
  }

  /** Appending the head of `b` and then its tail appends `b`. */
  lemma AppendHeadTail<T>(a: seq<T>, b: seq<T>)
    requires b != []
    ensures a + [b[0]] + b[1..] == a + b
  {
    assert [b[0]] + b[1..] == b;
    assert a + [b[0]] + b[1..] == a + ([b[0]] + b[1..]);
  }

  lemma AppendCons<T>(a: seq<T>, x: T, b: seq<T>)
    ensures a + ([x] + b) == a + [x] + b
  {
  }

  lemma ContainsSelf(s: string)
    ensures Contains(s, s)
  {
    assert s[0..|s|] == s;
    ContainsAt(s, s, 0);
  }

  /** `sub` cannot occur where its first character does not. */
  lemma NotContainsByFirstChar(s: string, sub: string)
    requires sub != []
    requires forall j :: 0 <= j && j + |sub| <= |s| ==> s[j] != sub[0]
    ensures !Contains(s, sub)
  {
    forall i ensures !OccursAt(s, sub, i) {
      if 0 <= i && i + |sub| <= |s| {
        assert s[i..i + |sub|][0] == s[i];
      }
    }
    ContainsIff(s, sub);
  }

  predicate NoUpper(s: string) { forall i :: 0 <= i < |s| ==> !('A' <= s[i] <= 'Z') }

  lemma ToLowerHasNoUpper(s: string)
    ensures NoUpper(ToLower(s))
  {
  }

  lemma NoUpperSuffix(s: string, k: nat)
    requires NoUpper(s) && k <= |s|
    ensures NoUpper(s[k..])
  {
    assert forall i :: 0 <= i < |s| - k ==> s[k..][i] == s[k + i];
  }

  lemma ToLowerOfNoUpper(s: string)
    requires NoUpper(s)
    ensures ToLower(s) == s
  {
  }

  /** std::string::find for a single character. */
  function FindChar(s: string, c: char): (r: Option<nat>)
    ensures r.Some? ==> r.value < |s| && s[r.value] == c
    ensures r.Some? ==> forall j :: 0 <= j < r.value ==> s[j] != c
    ensures r.None? ==> forall j :: 0 <= j < |s| ==> s[j] != c
  {
    if s == [] then None
    else if s[0] == c then Some(0)
    else match FindChar(s[1..], c)
      case None => None
      case Some(k) => Some(k + 1)
  }

  /** The first occurrence is the one with no earlier occurrence. */
  lemma FindCharAt(s: string, c: char, k: nat)
    requires k < |s| && s[k] == c
    requires forall j :: 0 <= j < k ==> s[j] != c
    ensures FindChar(s, c) == Some(k)
  {
  }

  /** std::string::rfind for a single character. */
  function FindLastChar(s: string, c: char): (r: Option<nat>)
    ensures r.Some? ==> r.value < |s| && s[r.value] == c
    ensures r.Some? ==> forall j :: r.value < j < |s| ==> s[j] != c
    ensures r.None? ==> forall j :: 0 <= j < |s| ==> s[j] != c
  {
    if s == [] then None
    else if s[|s| - 1] == c then Some(|s| - 1)
    else FindLastChar(s[..|s| - 1], c)
  }

  /** The text after the last occurrence of `c`, or all of `s` without one. */
  function AfterLast(s: string, c: char): (r: string)
    ensures IsSuffix(r, s)
    ensures forall j :: 0 <= j < |r| ==> r[j] != c
    ensures |r| < |s| ==> s[|s| - |r| - 1] == c
  {
    match FindLastChar(s, c)
    case None => s
    case Some(k) => s[k + 1..]
  }

  /** Elements joined with a separator, no trailing separator. */
  function Join(xs: seq<string>, sep: string): string {
    if xs == [] then ""
    else if |xs| == 1 then xs[0]
    else xs[0] + sep + Join(xs[1..], sep)
  }

  function DigitChar(d: nat): char
    requires d < 10
  {
    ('0' as int + d) as char
  }

  /** std::to_string for a non-negative integer. */
  function NatToString(n: nat): (r: string)
    ensures |r| > 0
    ensures forall i :: 0 <= i < |r| ==> IsDigit(r[i])
  {
    if n < 10 then [DigitChar(n)] else NatToString(n / 10) + [DigitChar(n % 10)]
  }

  function DigitValue(c: char): nat
    requires IsDigit(c)
  {
    c as int - '0' as int
  }

  /** Value of a non-empty run of decimal digits. */
  function DecimalValue(s: string): nat
    requires forall i :: 0 <= i < |s| ==> IsDigit(s[i])
  {
    if s == [] then 0 else DecimalValue(s[..|s| - 1]) * 10 + DigitValue(s[|s| - 1])
  }

  lemma {:induction false} NatToStringRoundTrip(n: nat)
    ensures DecimalValue(NatToString(n)) == n
  {
    if n >= 10 {
      NatToStringRoundTrip(n / 10);
      var r := NatToString(n);
      assert r[..|r| - 1] == NatToString(n / 10);
    }
  }
}
