/** An abstract YAML document and the part of yaml-cpp's node interface the
    agent uses: keyed lookup, definedness, type tests, string and integer
    conversion with and without a fallback, and iteration. Parsing YAML text
    into a tree is the library's business and stays outside; a loaded file
    arrives here as a `Load` value. */
module Document {
  import opened Common

  /** A YAML node. Mapping keys are scalars; entries keep document order.
      Null is the node of `key:` with nothing after it, `~` or `null`: it is
      defined, but neither a scalar, a sequence nor a map. */
  datatype Node =
    | Scalar(text: string)
    | Sequence(items: seq<Node>)
    | Mapping(entries: seq<(string, Node)>)
    | Null

  /** The result of node["key"]: a real node, or yaml-cpp's "zombie" node that
      remembers the key that was not found. A zombie tests false, converts to a
      fallback, and throws InvalidNode when indexed or converted without one. */
  datatype Handle = Present(node: Node) | Absent(missingKey: string)

  /** The exceptions a document read can raise: yaml-cpp's own (all derive
      from YAML::Exception), and the one Boost.Date_Time raises when a date
      condition's text is not a date. */
  datatype Fault =
    | BadSubscript(key: string)   // operator[] on a scalar
    | InvalidNode(key: string)    // use of a zombie node
    | BadConversion               // as<T>() on a node that does not convert
    | BadFile(what: string)       // YAML::LoadFile could not open or parse the file
    | BadDate(text: string)       // boost::gregorian::from_string refused the text

  /** Whether a `catch (const YAML::Exception&)` handler takes the fault. */
  predicate IsYamlException(f: Fault) {
    !f.BadDate?
  }

  /** YAML::LoadFile */
  datatype Load = Loaded(root: Node) | LoadFailed(fault: Fault)

  /** The exception's message, without the "yaml-cpp: error at line L, column C: "
      position prefix the library adds when it knows the position. */
  function Describe(f: Fault): string {
    match f
    case BadSubscript(key) => "operator[] call on a scalar (key: \"" + key + "\")"
    case InvalidNode(key) => "invalid node; first invalid key: \"" + key + "\""
    case BadConversion => "bad conversion"
    case BadFile(what) => what
    case BadDate(text) => "bad date: \"" + text + "\""
  }

  /** The value of the first entry with the given key. */
  function FindEntry(entries: seq<(string, Node)>, key: string): (r: Option<Node>)
    ensures r.Some? <==> exists i :: 0 <= i < |entries| && entries[i].0 == key
    ensures r.Some? ==> exists i :: 0 <= i < |entries| && entries[i] == (key, r.value)
  {
    if entries == [] then None
    else if entries[0].0 == key then Some(entries[0].1)
    else FindEntry(entries[1..], key)
  }

  /** node[key] */
  function Get(h: Handle, key: string): (r: Result<Handle, Fault>)
    ensures h.Absent? ==> r == Err(InvalidNode(h.missingKey))
    ensures h.Present? && h.node.Scalar? ==> r == Err(BadSubscript(key))
    ensures h.Present? && (h.node.Sequence? || h.node.Null?) ==> r == Ok(Absent(key))
    ensures h.Present? && h.node.Mapping? ==> r.Ok? && (r.value.Present? <==> HasKey(h.node, key))
  {
    match h
    case Absent(k) => Err(InvalidNode(k))
    case Present(n) =>
      match n
      case Scalar(_) => Err(BadSubscript(key))
      case Sequence(_) => Ok(Absent(key))
      case Null => Ok(Absent(key))
      case Mapping(es) =>
        match FindEntry(es, key)
        case None => Ok(Absent(key))
        case Some(v) => Ok(Present(v))
  }

  /** node[key] on a handle already known to be a present, non-scalar node,
      where the lookup cannot throw. */
  function Child(h: Handle, key: string): (r: Handle)
    requires h.Present? && !h.node.Scalar?
    ensures Get(h, key) == Ok(r)
  {
    Get(h, key).value
  }

  predicate HasKey(n: Node, key: string) {
    n.Mapping? && exists i :: 0 <= i < |n.entries| && n.entries[i].0 == key
  }

  /** `if (node)` */
  predicate Defined(h: Handle) { h.Present? }

  /** `node.IsSequence()` / `node.IsMap()` (only ever asked of defined nodes). */
  predicate IsSeq(h: Handle) { h.Present? && h.node.Sequence? }
  predicate IsMap(h: Handle) { h.Present? && h.node.Mapping? }

  /** The text yaml-cpp's string conversion gives a null node. */
  const NullText: string := "null"

  /** A node the string conversion accepts: a scalar, or null. */
  predicate IsText(n: Node) { n.Scalar? || n.Null? }

  /** What the string conversion makes of such a node. */
  function TextOf(n: Node): string
    requires IsText(n)
  {
    if n.Scalar? then n.text else NullText
  }

  /** node.as<std::string>(): a scalar's text, "null" for a null node. */
  function AsString(h: Handle): (r: Result<string, Fault>)
    ensures r.Ok? <==> h.Present? && IsText(h.node)
    ensures r.Ok? ==> r.value == TextOf(h.node)
    ensures h.Absent? ==> r == Err(InvalidNode(h.missingKey))
  {
    match h
    case Absent(k) => Err(InvalidNode(k))
    case Present(Scalar(t)) => Ok(t)
    case Present(Null) => Ok(NullText)
    case Present(_) => Err(BadConversion)
  }

  /** node.as<std::string>(fallback): the fallback replaces only a failed
      conversion, so a null node still gives "null". */
  function AsStringOr(h: Handle, fallback: string): (r: string)
    ensures AsString(h).Ok? ==> r == AsString(h).value
    ensures AsString(h).Err? ==> r == fallback
  {
    match h
    case Present(Scalar(t)) => t
    case Present(Null) => NullText
    case _ => fallback
  }

  /** Limits of the C++ types the agent converts to: int, and unsigned long
      on a 64-bit Linux target. */
  const IntMin: int := -0x8000_0000
  const IntMax: int := 0x7FFF_FFFF
  const ULongMax: int := 0xFFFF_FFFF_FFFF_FFFF

  /** The characters `std::ws` skips in the classic locale. */
  predicate IsStreamSpace(c: char) {
    c == ' ' || c == '\t' || c == '\n' || c == '\r' || c as int == 11 || c as int == 12
  }

  /** The text without its trailing whitespace: after the number the stream
      must hold nothing but whitespace. */
  function DropTrailingSpace(s: string): (r: string)
    ensures r <= s
    ensures r == [] || !IsStreamSpace(r[|r| - 1])
    ensures forall i :: |r| <= i < |s| ==> IsStreamSpace(s[i])
  {
    if s != [] && IsStreamSpace(s[|s| - 1]) then DropTrailingSpace(s[..|s| - 1]) else s
  }

  /** A digit of base 8, 10 or 16; hexadecimal digits in either case. */
  predicate IsDigitIn(c: char, base: nat) {
    if base == 16 then IsDigit(c) || 'a' <= c <= 'f' || 'A' <= c <= 'F'
    else IsDigit(c) && DigitValue(c) < base
  }

  predicate AllDigitsIn(s: string, base: nat) {
    forall i :: 0 <= i < |s| ==> IsDigitIn(s[i], base)
  }

  function DigitWorth(c: char): (r: nat)
    requires IsDigitIn(c, 16)
    ensures r < 16
    ensures IsDigit(c) ==> r == DigitValue(c)
  {
    if IsDigit(c) then DigitValue(c)
    else if 'a' <= c <= 'f' then c as int - 'a' as int + 10
    else c as int - 'A' as int + 10
  }

  /** The value of a run of digits in the given base. */
  function ValueIn(s: string, base: nat): nat
    requires base == 8 || base == 10 || base == 16
    requires AllDigitsIn(s, base)
  {
    if s == [] then 0 else ValueIn(s[..|s| - 1], base) * base + DigitWorth(s[|s| - 1])
  }

  /** The unsigned part as the stream reads it with no base set: "0x" or "0X"
      and at least one hexadecimal digit; a leading "0" and octal digits (the
      "0" alone is zero); otherwise decimal digits, at least one. */
  function Magnitude(s: string): (r: Option<nat>)
    ensures r.Some? ==> s != [] && IsDigit(s[0])
    ensures s != [] && s[0] != '0' ==> (r.Some? <==> AllDigitsIn(s, 10))
  {
    if |s| >= 2 && s[0] == '0' && (s[1] == 'x' || s[1] == 'X') then
      if |s| > 2 && AllDigitsIn(s[2..], 16) then Some(ValueIn(s[2..], 16)) else None
    else if s != [] && s[0] == '0' then
      if AllDigitsIn(s[1..], 8) then Some(ValueIn(s[1..], 8)) else None
    else if s != [] && AllDigitsIn(s, 10) then Some(ValueIn(s, 10))
    else None
  }

  /** node.as<int>()'s reading of a scalar: an optional sign, the magnitude in
      the base its prefix selects, nothing after it but whitespace, and a
      value that fits an int; leading whitespace is refused. */
  function ParseInt(s: string): (r: Option<int>)
    ensures r.Some? ==> IntMin <= r.value <= IntMax
    ensures r.Some? ==> s != [] && !IsStreamSpace(s[0])
  {
    var t := DropTrailingSpace(s);
    var body := if t != [] && (t[0] == '+' || t[0] == '-') then t[1..] else t;
    match Magnitude(body)
    case None => None
    case Some(m) =>
      var v := if t != [] && t[0] == '-' then -(m as int) else m;
      if IntMin <= v <= IntMax then Some(v) else None
  }

  /** node.as<unsigned long>()'s reading of a scalar: as for int, but a leading
      '-' is refused outright and the value must fit an unsigned long. */
  function ParseNat(s: string): (r: Option<nat>)
    ensures r.Some? ==> r.value <= ULongMax
    ensures s != [] && s[0] == '-' ==> r == None
  {
    if s != [] && s[0] == '-' then None
    else
      var t := DropTrailingSpace(s);
      var body := if t != [] && t[0] == '+' then t[1..] else t;
      match Magnitude(body)
      case None => None
      case Some(m) => if m <= ULongMax then Some(m) else None
  }

  /** The text std::to_string gives an int. */
  function DecimalText(n: int): (r: string)
    ensures r != [] && !IsStreamSpace(r[|r| - 1])
  {
    if n < 0 then "-" + NatToString(-n) else NatToString(n)
  }

  /** Decimal digits without a superfluous leading zero read back in base 10. */
  lemma {:induction false} ValueInDecimal(s: string)
    requires AllDigitsIn(s, 10)
    ensures forall i :: 0 <= i < |s| ==> IsDigit(s[i])
    ensures ValueIn(s, 10) == DecimalValue(s)
  {
    if s != [] {
      ValueInDecimal(s[..|s| - 1]);
    }
  }

  /** std::to_string of a positive number never starts with '0'. */
  lemma {:induction false} NatToStringLead(n: nat)
    requires n > 0
    ensures NatToString(n)[0] != '0'
  {
    if n >= 10 {
      NatToStringLead(n / 10);
      assert NatToString(n)[0] == NatToString(n / 10)[0];
    }
  }

  /** The magnitude of std::to_string's output is the number written. */
  lemma MagnitudeOfDecimal(n: nat)
    ensures Magnitude(NatToString(n)) == Some(n)
  {
    var s := NatToString(n);
    if n == 0 {
      assert s == "0";
    } else {
      NatToStringLead(n);
      assert AllDigitsIn(s, 10);
      ValueInDecimal(s);
      NatToStringRoundTrip(n);
    }
  }

  /** Every int written in decimal reads back, and a number outside int's range
      is refused rather than wrapped. */
  lemma ParseIntDecimal(n: int)
    ensures ParseInt(DecimalText(n)) == if IntMin <= n <= IntMax then Some(n) else None
  {
    var s := DecimalText(n);
    assert DropTrailingSpace(s) == s;
    if n < 0 {
      MagnitudeOfDecimal(-n);
      assert s[1..] == NatToString(-n);
    } else {
      MagnitudeOfDecimal(n);
      NatToStringLead(n + 1);
    }
  }

  /** Every unsigned long written in decimal reads back; a larger number is
      refused. */
  lemma ParseNatDecimal(n: nat)
    ensures ParseNat(NatToString(n)) == if n <= ULongMax then Some(n) else None
  {
    var s := NatToString(n);
    assert DropTrailingSpace(s) == s;
    MagnitudeOfDecimal(n);
  }

  /** "0x" or "0X" selects base 16, and a sign may precede it. */
  lemma HexPrefix()
    ensures ParseInt("0x10") == Some(16) && ParseInt("0X1f") == Some(31)
    ensures ParseInt("-0x10") == Some(-16)
  {
    assert ValueIn("10", 16) == 16;
    assert ValueIn("1f", 16) == 31;
  }

  /** A leading "0" selects base 8, where '8' is not a digit. */
  lemma OctalPrefix()
    ensures ParseInt("010") == Some(8) && ParseInt("08") == None
  {
    assert ValueIn("10", 8) == 8;
    assert "08"[1..][0] == '8' && !IsDigitIn('8', 8);
  }

  /** A '+' sign and trailing whitespace are accepted; leading whitespace is not. */
  lemma SignAndSpace()
    ensures ParseInt("+5") == Some(5)
    ensures ParseInt("5 ") == Some(5) && ParseInt(" 5") == None
  {
    assert ValueIn("5", 10) == 5;
    assert DropTrailingSpace("5 ") == "5";
  }

  /** The unsigned conversion takes '+' but refuses '-'. */
  lemma UnsignedSign()
    ensures ParseNat("-1") == None && ParseNat("+7") == Some(7)
  {
    assert ValueIn("7", 10) == 7;
  }

  /** node.as<int>() */
  function AsInt(h: Handle): (r: Result<int, Fault>)
    ensures r.Ok? <==> h.Present? && h.node.Scalar? && ParseInt(h.node.text).Some?
    ensures r.Ok? ==> ParseInt(h.node.text) == Some(r.value)
  {
    match h
    case Absent(k) => Err(InvalidNode(k))
    case Present(Scalar(t)) =>
      (match ParseInt(t)
       case Some(v) => Ok(v)
       case None => Err(BadConversion))
    case Present(_) => Err(BadConversion)
  }

  /** node.as<int>(fallback) */
  function AsIntOr(h: Handle, fallback: int): (r: int)
    ensures AsInt(h).Ok? ==> r == AsInt(h).value
    ensures AsInt(h).Err? ==> r == fallback
  {
    match AsInt(h)
    case Ok(v) => v
    case Err(_) => fallback
  }

  /** node.as<unsigned long>() */
  function AsNat(h: Handle): (r: Result<nat, Fault>)
    ensures r.Ok? <==> h.Present? && h.node.Scalar? && ParseNat(h.node.text).Some?
    ensures r.Ok? ==> ParseNat(h.node.text) == Some(r.value)
  {
    match h
    case Absent(k) => Err(InvalidNode(k))
    case Present(Scalar(t)) =>
      (match ParseNat(t)
       case Some(v) => Ok(v)
       case None => Err(BadConversion))
    case Present(_) => Err(BadConversion)
  }

  /** The elements a range-for over a defined node visits: a sequence's items;
      nothing for a scalar; for a map, one zombie per entry (the iterator's value
      is a key/value pair whose own node part is invalid). */
  function Elements(n: Node): (r: seq<Handle>)
    ensures n.Sequence? ==> |r| == |n.items| && forall i :: 0 <= i < |r| ==> r[i] == Present(n.items[i])
    ensures n.Scalar? || n.Null? ==> r == []
    ensures n.Mapping? ==> |r| == |n.entries| && forall i :: 0 <= i < |r| ==> r[i] == Absent("")
  {
    match n
    case Scalar(_) => []
    case Null => []
    case Sequence(items) => seq(|items|, i requires 0 <= i < |items| => Present(items[i]))
    case Mapping(es) => seq(|es|, i requires 0 <= i < |es| => Absent(""))
  }

  /** node.as<std::vector<std::string>>() (and std::list): a sequence whose
      elements each convert to a string. */
  function AsStringList(h: Handle): (r: Result<seq<string>, Fault>)
    ensures r.Ok? <==> h.Present? && h.node.Sequence? && forall i :: 0 <= i < |h.node.items| ==> IsText(h.node.items[i])
    ensures r.Ok? ==> |r.value| == |h.node.items| && forall i :: 0 <= i < |r.value| ==>
                        r.value[i] == TextOf(h.node.items[i])
  {
    match h
    case Absent(k) => Err(InvalidNode(k))
    case Present(Sequence(items)) => Texts(items)
    case Present(_) => Err(BadConversion)
  }

  /** Each element converted to a string, in order. */
  function Texts(items: seq<Node>): (r: Result<seq<string>, Fault>)
    ensures r.Ok? <==> forall i :: 0 <= i < |items| ==> IsText(items[i])
    ensures r.Ok? ==> |r.value| == |items| && forall i :: 0 <= i < |items| ==> r.value[i] == TextOf(items[i])
  {
    if items == [] then Ok([])
    else if !IsText(items[0]) then Err(BadConversion)
    else match Texts(items[1..])
      case Err(f) => Err(f)
      case Ok(rest) => Ok([TextOf(items[0])] + rest)
  }

  /** node.as<std::vector<unsigned long>>() */
  function AsNatList(h: Handle): (r: Result<seq<nat>, Fault>)
    ensures r.Ok? ==> h.Present? && h.node.Sequence? && |r.value| == |h.node.items|
  {
    match h
    case Absent(k) => Err(InvalidNode(k))
    case Present(Sequence(items)) => NatValues(items)
    case Present(_) => Err(BadConversion)
  }

  function NatValues(items: seq<Node>): (r: Result<seq<nat>, Fault>)
    ensures r.Ok? ==> |r.value| == |items|
    ensures r.Ok? ==> forall i :: 0 <= i < |items| ==>
                        items[i].Scalar? && ParseNat(items[i].text) == Some(r.value[i])
  {
    if items == [] then Ok([])
    else match AsNat(Present(items[0]))
      case Err(f) => Err(f)
      case Ok(v) =>
        match NatValues(items[1..])
        case Err(f) => Err(f)
        case Ok(rest) => Ok([v] + rest)
  }
}
