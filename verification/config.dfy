/** The configuration (src/config.cpp, include/config.h): the global
    settings, the `.env` file that feeds the environment, and one account per
    entry of `accounts` with its SMTP and IMAP settings, credentials, IMAP
    filter and SMTP recipients.

    The configuration object is a static instance, so it starts zeroed and
    every load writes over it or appends to it. A load is modelled as a
    function from the old configuration, the loaded document, the process
    environment and the `.env` files on disk to the new configuration and
    environment. Every yaml-cpp exception ends the load at the point it is
    raised, keeping what was written before it. */
module Config {
  import opened Common
  import opened Document
  import opened Calendar

  // ---------------------------------------------------------------------------
  // trim

  /** The characters trim strips. */
  predicate IsSpace(c: char) { c == ' ' || c == '\t' || c == '\r' || c == '\n' }

  predicate AllSpace(s: string) { forall i :: 0 <= i < |s| ==> IsSpace(s[i]) }

  /** find_first_not_of, as a count of leading blanks. */
  function LeadingSpaces(s: string): (n: nat)
    ensures n <= |s| && AllSpace(s[..n])
    ensures n < |s| ==> !IsSpace(s[n])
  {
    if s == [] || !IsSpace(s[0]) then 0
    else
      var k := LeadingSpaces(s[1..]);
      assert s[..k + 1] == [s[0]] + s[1..][..k];
      k + 1
  }

  /** find_last_not_of, as a count of trailing blanks. */
  function TrailingSpaces(s: string): (n: nat)
    ensures n <= |s| && forall i :: |s| - n <= i < |s| ==> IsSpace(s[i])
    ensures n < |s| ==> !IsSpace(s[|s| - n - 1])
  {
    if s == [] || !IsSpace(s[|s| - 1]) then 0
    else
      var k := TrailingSpaces(s[..|s| - 1]);
      k + 1
  }

  /** `s` is `pre + mid + post` with blank `pre` and `post` and a `mid` that
      is empty or starts and ends with a non-blank. */
  predicate TrimSplit(s: string, pre: nat, mid: string) {
    && pre + |mid| <= |s|
    && s[pre..pre + |mid|] == mid
    && AllSpace(s[..pre]) && AllSpace(s[pre + |mid|..])
    && (mid != [] ==> !IsSpace(mid[0]) && !IsSpace(mid[|mid| - 1]))
  }

  /** Config::trim */
  function Trim(s: string): (r: string)
    ensures r == [] <==> AllSpace(s)
    ensures r != [] ==> !IsSpace(r[0]) && !IsSpace(r[|r| - 1])
    ensures exists pre :: TrimSplit(s, pre, r)
  {
    var a := LeadingSpaces(s);
    if a == |s| then
      assert TrimSplit(s, 0, []) by { assert s[..0] == [] && s[0..] == s[..a]; }
      []
    else
      var t := TrailingSpaces(s);
      assert t < |s| - a;
      var r := s[a..|s| - t];
      assert TrimSplit(s, a, r);
      r
  }

  /** What a split says about single positions of `s`. */
  lemma SplitPositions(s: string, pre: nat, mid: string)
    requires TrimSplit(s, pre, mid)
    ensures forall i :: 0 <= i < pre ==> IsSpace(s[i])
    ensures forall i :: pre + |mid| <= i < |s| ==> IsSpace(s[i])
    ensures forall i :: 0 <= i < |mid| ==> s[pre + i] == mid[i]
  {
    forall i | 0 <= i < pre ensures IsSpace(s[i]) { assert s[i] == s[..pre][i]; }
    forall i | pre + |mid| <= i < |s| ensures IsSpace(s[i]) {
      assert s[i] == s[pre + |mid|..][i - pre - |mid|];
    }
    forall i | 0 <= i < |mid| ensures s[pre + i] == mid[i] {
      assert s[pre + i] == s[pre..pre + |mid|][i];
    }
  }

  /** Two splits of the same string have the same middle. */
  lemma SplitUnique(s: string, p1: nat, m1: string, p2: nat, m2: string)
    requires TrimSplit(s, p1, m1) && TrimSplit(s, p2, m2)
    ensures m1 == m2
  {
    SplitPositions(s, p1, m1);
    SplitPositions(s, p2, m2);
    if m1 != [] && m2 != [] {
      assert !IsSpace(s[p1 + 0]) && !IsSpace(s[p2 + 0]);
      assert p1 == p2;
      assert !IsSpace(s[p1 + (|m1| - 1)]) && !IsSpace(s[p2 + (|m2| - 1)]);
      assert |m1| == |m2|;
      assert m1 == s[p1..p1 + |m1|];
    }
  }

  /** Trim is characterised by the split: whatever blank prefix and suffix
      are cut off, what remains is Trim's result. */
  lemma TrimUnique(s: string, pre: nat, mid: string)
    requires TrimSplit(s, pre, mid)
    ensures Trim(s) == mid
  {
    var r := Trim(s);
    var pre' :| TrimSplit(s, pre', r);
    SplitUnique(s, pre, mid, pre', r);
  }

  /** Trim is idempotent. */
  lemma TrimIdempotent(s: string)
    ensures Trim(Trim(s)) == Trim(s)
  {
    var r := Trim(s);
    assert TrimSplit(r, 0, r) by { assert r[..0] == [] && r[|r|..] == []; assert r[0..|r|] == r; }
    TrimUnique(r, 0, r);
  }

  // ---------------------------------------------------------------------------
  // The .env file

  /** What loadDotEnvFile makes of one line. */
  datatype EnvLine = Skipped | Malformed(text: string) | Assignment(key: string, value: string)

  /** One line, trimmed: blank lines and '#' comments are skipped, a line
      without '=' is malformed, otherwise it splits at the first '=' and both
      halves are trimmed. */
  function ParseEnvLine(line: string): (l: EnvLine)
    ensures l.Skipped? <==> Trim(line) == [] || Trim(line)[0] == '#'
    ensures l.Malformed? ==> l.text == Trim(line) && forall j :: 0 <= j < |l.text| ==> l.text[j] != '='
    ensures l.Assignment? ==> exists i :: 0 <= i < |Trim(line)| && Trim(line)[i] == '='
  {
    ParseTrimmedLine(Trim(line))
  }

  /** The same, on a line that is already trimmed. */
  function ParseTrimmedLine(t: string): (l: EnvLine)
    ensures l.Skipped? <==> t == [] || t[0] == '#'
    ensures l.Malformed? ==> l.text == t && forall j :: 0 <= j < |t| ==> t[j] != '='
    ensures l.Assignment? ==> exists i :: 0 <= i < |t| && t[i] == '='
  {
    if t == [] || t[0] == '#' then Skipped
    else match FindChar(t, '=')
      case None => Malformed(t)
      case Some(i) => SplitAt(t, i)
  }

  /** The assignment of a line whose first '=' is at i: both sides trimmed. */
  function SplitAt(t: string, i: nat): (l: EnvLine)
    requires i < |t|
    ensures l.Assignment?
  {
    Assignment(Trim(t[..i]), Trim(t[i + 1..]))
  }

  /** A string that starts and ends with a non-blank is its own trim. */
  lemma TrimOfTrimmed(s: string)
    requires s != [] && !IsSpace(s[0]) && !IsSpace(s[|s| - 1])
    ensures Trim(s) == s
  {
    assert s[..0] == [] && s[|s|..] == [] && s[0..|s|] == s;
    assert TrimSplit(s, 0, s);
    TrimUnique(s, 0, s);
  }

  /** In key=value with no '=' in the key, the first '=' is the separator. */
  lemma FirstEquals(key: string, value: string)
    requires forall j :: 0 <= j < |key| ==> key[j] != '='
    ensures FindChar(key + "=" + value, '=') == Some(|key|)
  {
    var line := key + "=" + value;
    assert line[|key|] == '=';
    assert forall j :: 0 <= j < |key| ==> line[j] == key[j];
  }

  /** A line that is already trimmed, not a comment and holds '=' splits at
      its first '='. */
  lemma SplitAtFirstEquals(line: string, i: nat)
    requires Trim(line) == line && line != [] && line[0] != '#'
    requires FindChar(line, '=') == Some(i)
    ensures ParseEnvLine(line) == Assignment(Trim(line[..i]), Trim(line[i + 1..]))
  {
    TrimmedLineSplits(line, i);
  }

  lemma TrimmedLineSplits(t: string, i: nat)
    requires t != [] && t[0] != '#' && FindChar(t, '=') == Some(i)
    ensures ParseTrimmedLine(t) == SplitAt(t, i)
  {
  }

  /** key=value with trimmed parts and a key that is not a comment starts
      and ends with a non-blank and does not start with '#'. */
  lemma LineEnds(key: string, value: string)
    requires Trim(key) == key && Trim(value) == value
    requires key == [] || key[0] != '#'
    ensures var line := key + "=" + value;
      line[0] != '#' && !IsSpace(line[0]) && !IsSpace(line[|line| - 1])
  {
    var line := key + "=" + value;
    if key == [] { assert line[0] == '='; } else { assert line[0] == key[0]; }
    if value == [] { assert line[|line| - 1] == '='; } else { assert line[|line| - 1] == value[|value| - 1]; }
  }

  /** A line written as key=value with trimmed parts reads back as that
      assignment, even when the value itself contains '='. */
  lemma EnvLineRoundTrip(key: string, value: string)
    requires Trim(key) == key && Trim(value) == value
    requires forall j :: 0 <= j < |key| ==> key[j] != '='
    requires key == [] || key[0] != '#'
    ensures ParseEnvLine(key + "=" + value) == Assignment(key, value)
  {
    var line := key + "=" + value;
    LineEnds(key, value);
    TrimOfTrimmed(line);
    FirstEquals(key, value);
    SplitAtFirstEquals(line, |key|);
    AssignmentParts(line, key, value);
  }

  lemma AssignmentParts(line: string, key: string, value: string)
    requires line == key + "=" + value
    ensures line[..|key|] == key && line[|key| + 1..] == value
  {
  }

  /** setenv(key, value, 1): an empty name is refused (EINVAL). */
  function SetEnv(env: map<string, string>, key: string, value: string): (env': map<string, string>)
    ensures key == [] ==> env' == env
    ensures key != [] ==> key in env' && env'[key] == value
    ensures forall k :: k != key ==> (k in env' <==> k in env) && (k in env ==> env'[k] == env[k])
  {
    if key == [] then env else env[key := value]
  }

  /** The lines of the .env file applied in order. */
  function ApplyEnvLines(env: map<string, string>, lines: seq<string>): map<string, string>
    decreases |lines|
  {
    if lines == [] then env
    else
      var env' := match ParseEnvLine(lines[0])
        case Assignment(k, v) => SetEnv(env, k, v)
        case _ => env;
      ApplyEnvLines(env', lines[1..])
  }

  /** Reference: the value of the last line that assigns a non-empty key k. */
  function LastAssignment(lines: seq<string>, k: string): Option<string>
    decreases |lines|
  {
    if lines == [] then None
    else match LastAssignment(lines[1..], k)
      case Some(v) => Some(v)
      case None =>
        var l := ParseEnvLine(lines[0]);
        if l.Assignment? && l.key == k && k != [] then Some(l.value) else None
  }

  /** The file's last assignment of a key wins; keys it never assigns keep
      their value from the environment. */
  lemma {:induction false} EnvLastAssignmentWins(env: map<string, string>, lines: seq<string>, k: string)
    ensures LastAssignment(lines, k).Some? ==>
      k in ApplyEnvLines(env, lines) && ApplyEnvLines(env, lines)[k] == LastAssignment(lines, k).value
    ensures LastAssignment(lines, k).None? ==>
      (k in ApplyEnvLines(env, lines) <==> k in env) &&
      (k in env ==> ApplyEnvLines(env, lines)[k] == env[k])
    decreases |lines|
  {
    if lines != [] {
      var env' := match ParseEnvLine(lines[0])
        case Assignment(k', v) => SetEnv(env, k', v)
        case _ => env;
      EnvLastAssignmentWins(env', lines[1..], k);
    }
  }

  /** The .env files loadDotEnvFile may find: one per working directory that
      has one, and the one in the current directory. */
  datatype EnvFiles = EnvFiles(inWorkDir: map<string, seq<string>>, inCurrentDir: Option<seq<string>>)

  /** The file at path(work_dir) / ".env": an empty work_dir makes that the
      relative path ".env", which names the current directory's file. */
  function WorkDirEnvFile(workDir: string, files: EnvFiles): (r: Option<seq<string>>)
    ensures workDir == "" ==> r == files.inCurrentDir
    ensures workDir != "" ==> (r.Some? <==> workDir in files.inWorkDir)
    ensures workDir != "" && r.Some? ==> r.value == files.inWorkDir[workDir]
  {
    if workDir == "" then files.inCurrentDir
    else if workDir in files.inWorkDir then Some(files.inWorkDir[workDir])
    else None
  }

  /** Config::loadDotEnvFile: the work_dir file if there is one, else the
      current directory's, else nothing. */
  function LoadDotEnv(env: map<string, string>, workDir: string, files: EnvFiles): (env': map<string, string>)
    ensures workDir != "" && workDir in files.inWorkDir ==> env' == ApplyEnvLines(env, files.inWorkDir[workDir])
    ensures (workDir == "" || workDir !in files.inWorkDir) && files.inCurrentDir.Some? ==>
      env' == ApplyEnvLines(env, files.inCurrentDir.value)
    ensures (workDir == "" || workDir !in files.inWorkDir) && files.inCurrentDir.None? ==> env' == env
  {
    match WorkDirEnvFile(workDir, files)
    case Some(lines) => ApplyEnvLines(env, lines)
    case None =>
      match files.inCurrentDir
      case Some(lines) => ApplyEnvLines(env, lines)
      case None => env
  }

  // ---------------------------------------------------------------------------
  // Password substitution

  /** "${" at the front and '}' at the back. */
  predicate IsPlaceholder(p: string) {
    |p| >= 2 && p[..2] == "${" && p[|p| - 1] == '}'
  }

  /** The name between "${" and "}". */
  function PlaceholderName(p: string): (name: string)
    requires IsPlaceholder(p)
    ensures "${" + name + "}" == p
  {
    assert p[1] == '{';
    var name := p[2..|p| - 1];
    assert p == p[..2] + name + [p[|p| - 1]];
    name
  }

  /** getenv: an empty name is never found. */
  function GetEnv(env: map<string, string>, name: string): (v: Option<string>)
    ensures v.Some? <==> name != [] && name in env
    ensures v.Some? ==> v.value == env[name]
  {
    if name != [] && name in env then Some(env[name]) else None
  }

  /** The password substitution of loadConfig. */
  function SubstitutePassword(p: string, env: map<string, string>): (r: string)
    ensures !IsPlaceholder(p) ==> r == p
    ensures IsPlaceholder(p) && GetEnv(env, PlaceholderName(p)).None? ==> r == p
    ensures IsPlaceholder(p) && GetEnv(env, PlaceholderName(p)).Some? ==> r == env[PlaceholderName(p)]
  {
    if IsPlaceholder(p) then
      match GetEnv(env, PlaceholderName(p))
      case Some(v) => v
      case None => p
    else p
  }

  /** "${NAME}" becomes the value of NAME when it is set and stays literal
      when it is not. */
  lemma PlaceholderRoundTrip(name: string, env: map<string, string>)
    ensures name != [] && name in env ==> SubstitutePassword("${" + name + "}", env) == env[name]
    ensures !(name != [] && name in env) ==> SubstitutePassword("${" + name + "}", env) == "${" + name + "}"
  {
    var p := "${" + name + "}";
    assert p[..2] == "${";
    assert IsPlaceholder(p);
    var n := PlaceholderName(p);
    assert p[2..|p| - 1] == name;
  }

  // ---------------------------------------------------------------------------
  // Configuration records

  datatype GlobalConfig = GlobalConfig(
    defaultTimeout: int,
    logLevel: string,
    workDir: string,
    zeromqEndpoint: string,
    checkMailIntervalMs: int)

  /** host, port, security, auth_method of one protocol. */
  datatype ProtocolConfig = ProtocolConfig(host: string, port: int, security: string, authMethod: string)

  /** The search keys of mailio's search_condition_t, each of which stands for
      a search key of section 6.4.4 of RFC 3501; Undefined carries the type
      string no enumerator matched. */
  datatype SearchKey =
    | All | SidList | UidList | Subject | Body | From | To
    | BeforeDate | OnDate | SinceDate | New | Recent | Seen | Unseen
    | Undefined(typeName: string)

  /** A message id, or an id range. */
  datatype IdRange = Single(id: nat) | Between(first: nat, last: nat)

  /** The value alternatives of a condition. */
  datatype SearchValue = NoValue | Text(text: string) | Ranges(ranges: seq<IdRange>) | Date(date: CalendarDate)

  datatype Condition = Condition(key: SearchKey, value: SearchValue)

  datatype ImapFilter = ImapFilter(name: string, folders: seq<string>, conditions: seq<Condition>)

  datatype Address = Address(name: string, address: string)

  datatype Group = Group(name: string, members: seq<Address>)

  datatype Mailboxes = Mailboxes(addresses: seq<Address>, groups: seq<Group>)

  /** SmtpConfig; `from` is None when the document gives none. */
  datatype SmtpDetails = SmtpDetails(from: Option<Address>, to: Mailboxes, cc: Mailboxes, bcc: Mailboxes)

  /** AccountConfig. A protocol or filter the document does not give is None
      (the C++ fields stay default-constructed). */
  datatype Account = Account(
    name: string,
    smtpServer: Option<ProtocolConfig>,
    imapServer: Option<ProtocolConfig>,
    imapFilter: Option<ImapFilter>,
    smtpDetails: Option<SmtpDetails>,
    username: string,
    password: string,
    defaultFolder: string)

  datatype Configuration = Configuration(global: GlobalConfig, accounts: seq<Account>)

  /** The static instance before any load: numbers zero, strings empty. */
  function InitialConfiguration(): Configuration {
    Configuration(GlobalConfig(0, "", "", "", 0), [])
  }

  // ---------------------------------------------------------------------------
  // Search conditions

  /** The type strings parseCondition recognises. */
  function KeyOf(typeName: string): (k: SearchKey)
    ensures k.Undefined? ==> k.typeName == typeName
  {
    if typeName == "ALL" then All
    else if typeName == "SID_LIST" then SidList
    else if typeName == "UID_LIST" then UidList
    else if typeName == "SUBJECT" then Subject
    else if typeName == "BODY" then Body
    else if typeName == "FROM" then From
    else if typeName == "TO" then To
    else if typeName == "BEFORE_DATE" then BeforeDate
    else if typeName == "ON_DATE" then OnDate
    else if typeName == "SINCE_DATE" then SinceDate
    else if typeName == "NEW" then New
    else if typeName == "RECENT" then Recent
    else if typeName == "SEEN" then Seen
    else if typeName == "UNSEEN" then Unseen
    else Undefined(typeName)
  }

  /** The type string that selects each key. */
  function TypeNameOf(k: SearchKey): string {
    match k
    case All => "ALL"
    case SidList => "SID_LIST"
    case UidList => "UID_LIST"
    case Subject => "SUBJECT"
    case Body => "BODY"
    case From => "FROM"
    case To => "TO"
    case BeforeDate => "BEFORE_DATE"
    case OnDate => "ON_DATE"
    case SinceDate => "SINCE_DATE"
    case New => "NEW"
    case Recent => "RECENT"
    case Seen => "SEEN"
    case Unseen => "UNSEEN"
    case Undefined(t) => t
  }

  /** The recognised type strings and the keys are in one-to-one
      correspondence. */
  lemma KeyOfTypeNameRoundTrip(k: SearchKey, t: string)
    ensures !k.Undefined? ==> KeyOf(TypeNameOf(k)) == k
    ensures !KeyOf(t).Undefined? ==> TypeNameOf(KeyOf(t)) == t
  {
    KeyOfTypeName(k);
    TypeNameOfKey(t);
  }

  lemma KeyOfTypeName(k: SearchKey)
    ensures !k.Undefined? ==> KeyOf(TypeNameOf(k)) == k
  {
    match k
    case Undefined(_) =>
    case _ =>
  }

  lemma TypeNameOfKey(t: string)
    ensures !KeyOf(t).Undefined? ==> TypeNameOf(KeyOf(t)) == t
  {
  }

  /** The kind of argument RFC 3501 section 6.4.4 gives each search key. */
  datatype ArgumentKind = NoArgument | StringArgument | SequenceSetArgument | DateArgument

  function RfcArgument(k: SearchKey): ArgumentKind
    requires !k.Undefined?
  {
    match k
    case All | New | Recent | Seen | Unseen => NoArgument
    case Subject | Body | From | To => StringArgument
    case SidList | UidList => SequenceSetArgument
    case BeforeDate | OnDate | SinceDate => DateArgument
  }

  /** The search keyword of RFC 3501 section 6.4.4 each key is sent as; a
      message-number list is sent as a bare sequence set. */
  function RfcKeyword(k: SearchKey): string
    requires !k.Undefined?
  {
    match k
    case All => "ALL"
    case SidList => ""
    case UidList => "UID"
    case Subject => "SUBJECT"
    case Body => "BODY"
    case From => "FROM"
    case To => "TO"
    case BeforeDate => "BEFORE"
    case OnDate => "ON"
    case SinceDate => "SINCE"
    case New => "NEW"
    case Recent => "RECENT"
    case Seen => "SEEN"
    case Unseen => "UNSEEN"
  }

  /** Does a value have the shape a key's RFC argument calls for? */
  predicate Fits(k: SearchKey, v: SearchValue)
    requires !k.Undefined?
  {
    match RfcArgument(k)
    case NoArgument => v.NoValue?
    case StringArgument => v.Text?
    case SequenceSetArgument => v.Ranges?
    case DateArgument => v.Date? && ValidDate(v.date)
  }

  /** One entry of an id list: a `range` of one id or of two; anything else,
      or no `range`, adds nothing. */
  function RangeOf(ids: seq<nat>): (r: Option<IdRange>)
    ensures |ids| == 1 <==> r.Some? && r.value.Single?
    ensures |ids| == 2 <==> r.Some? && r.value.Between?
    ensures r.Some? && r.value.Single? ==> r.value.id == ids[0]
    ensures r.Some? && r.value.Between? ==> r.value.first == ids[0] && r.value.last == ids[1]
  {
    if |ids| == 1 then Some(Single(ids[0]))
    else if |ids| == 2 then Some(Between(ids[0], ids[1]))
    else None
  }

  /** The loop over an id list value. */
  function ParseRanges(items: seq<Handle>): (r: Result<seq<IdRange>, Fault>)
    ensures r.Ok? ==> |r.value| <= |items|
    decreases |items|
  {
    if items == [] then Ok([])
    else
      var rh :- Get(items[0], "range");
      var here :- if Defined(rh) then
          (var ids :- AsNatList(rh); Ok(RangeOf(ids)))
        else Ok(None);
      var rest :- ParseRanges(items[1..]);
      Ok(if here.Some? then [here.value] + rest else rest)
  }

  /** Config::parseCondition: the type string selects the key, and the key
      decides how the value is read. */
  function ParseCondition(cn: Handle): (r: Result<Condition, Fault>)
    ensures r.Ok? ==> exists t :: r.value.key == KeyOf(t)
    ensures r.Ok? && r.value.key == All ==> r.value.value == NoValue
    ensures r.Ok? && r.value.value.Ranges? ==> r.value.key in {SidList, UidList}
    ensures r.Ok? && r.value.value.Date? ==> r.value.key in {BeforeDate, OnDate, SinceDate}
  {
    var th :- Get(cn, "type");
    var t :- AsString(th);
    ConditionValue(KeyOf(t), Child(cn, "value"))
  }

  /** The value part of parseCondition, once the key is known: none for ALL;
      an id list for SID_LIST and UID_LIST when a value is present; for the
      date keys (which must have a value) the date its text spells, a BadDate
      fault when it spells none; otherwise the value's text when present and
      no value when absent. */
  function ConditionValue(key: SearchKey, vh: Handle): (r: Result<Condition, Fault>)
    ensures r.Ok? ==> r.value.key == key
    ensures r.Ok? && key == All ==> r.value.value == NoValue
    ensures r.Ok? && r.value.value.Ranges? ==> key in {SidList, UidList}
    ensures r.Ok? && r.value.value.Date? ==> key in {BeforeDate, OnDate, SinceDate} && ValidDate(r.value.value.date)
    ensures key in {SidList, UidList} && !Defined(vh) ==> r == Ok(Condition(key, NoValue))
    ensures key in {BeforeDate, OnDate, SinceDate} ==>
      (r.Ok? <==> AsString(vh).Ok? && FromString(AsString(vh).value).Some?)
    ensures key in {BeforeDate, OnDate, SinceDate} && AsString(vh).Ok? ==>
      var text := AsString(vh).value;
      r == if FromString(text).Some? then Ok(Condition(key, Date(FromString(text).value))) else Err(BadDate(text))
  {
    if key == All then Ok(Condition(key, NoValue))
    else if key == SidList || key == UidList then
      if Defined(vh) then
        var ranges :- ParseRanges(Elements(vh.node));
        Ok(Condition(key, Ranges(ranges)))
      else Ok(Condition(key, NoValue))
    else if key == BeforeDate || key == OnDate || key == SinceDate then
      var text :- AsString(vh);
      match FromString(text)
      case Some(d) => Ok(Condition(key, Date(d)))
      case None => Err(BadDate(text))
    else
      if Defined(vh) then
        var text :- AsString(vh);
        Ok(Condition(key, Text(text)))
      else Ok(Condition(key, NoValue))
  }

  /** A condition node: its type and, optionally, its value. */
  function ConditionNode(typeName: string, value: Option<Node>): Node {
    match value
    case None => Mapping([("type", Scalar(typeName))])
    case Some(v) => Mapping([("type", Scalar(typeName)), ("value", v)])
  }

  /** The two lookups parseCondition makes on a condition node. */
  lemma ConditionNodeLookups(t: string, v: Option<Node>)
    ensures Get(Present(ConditionNode(t, v)), "type") == Ok(Present(Scalar(t)))
    ensures Child(Present(ConditionNode(t, v)), "value") == if v.Some? then Present(v.value) else Absent("value")
  {
    var es := ConditionNode(t, v).entries;
    assert es[0] == ("type", Scalar(t));
    assert FindEntry(es, "type") == Some(Scalar(t));
    assert "type" != "value";
    if v.Some? {
      assert es[1..] == [("value", v.value)];
      assert FindEntry(es, "value") == FindEntry(es[1..], "value") == Some(v.value);
    } else {
      assert es[1..] == [];
      assert FindEntry(es, "value") == FindEntry(es[1..], "value") == None;
    }
  }

  /** A condition written with a known type and the value its RFC 3501 search
      key calls for (none for ALL and the flags, a scalar for the string keys,
      a valid date in YYYY-MM-DD form for the date keys, an empty id list for
      the id lists) is read back with that key and a value of that shape; a
      date is read back as itself. */
  lemma ConditionFitsRfc(k: SearchKey, text: string, date: CalendarDate)
    requires !k.Undefined? && ValidDate(date)
    ensures var r := ParseCondition(Present(ConditionNode(TypeNameOf(k), RfcValue(k, text, date))));
      && r.Ok? && r.value.key == k && Fits(k, r.value.value)
      && (RfcArgument(k) == DateArgument ==> r.value.value == Date(date))
  {
    KnownConditionReadsValue(k, RfcValue(k, text, date));
    RfcValueFits(k, text, date);
  }

  /** The value node RFC 3501 calls for: none for ALL and the flags, a scalar
      for the string keys, a date written as YYYY-MM-DD for the date keys, an
      empty id list for the id lists. */
  function RfcValue(k: SearchKey, text: string, date: CalendarDate): Option<Node>
    requires !k.Undefined? && ValidDate(date)
  {
    match RfcArgument(k)
    case NoArgument => None
    case StringArgument => Some(Scalar(text))
    case DateArgument => Some(Scalar(IsoText(date)))
    case SequenceSetArgument => Some(Sequence([]))
  }

  lemma RfcValueFits(k: SearchKey, text: string, date: CalendarDate)
    requires !k.Undefined? && ValidDate(date)
    ensures var v := RfcValue(k, text, date);
      var r := ConditionValue(k, if v.Some? then Present(v.value) else Absent("value"));
      && r.Ok? && r.value.key == k && Fits(k, r.value.value)
      && (RfcArgument(k) == DateArgument ==> r.value.value == Date(date))
  {
    match RfcArgument(k)
    case NoArgument => assert ConditionValue(k, Absent("value")) == Ok(Condition(k, NoValue));
    case StringArgument => assert ConditionValue(k, Present(Scalar(text))) == Ok(Condition(k, Text(text)));
    case DateArgument =>
      FromStringIso(date);
      assert ConditionValue(k, Present(Scalar(IsoText(date)))) == Ok(Condition(k, Date(date)));
    case SequenceSetArgument =>
      assert Elements(Sequence([])) == [];
      assert ConditionValue(k, Present(Sequence([]))) == Ok(Condition(k, Ranges([])));
  }

  /** A date condition whose text Boost does not read as a date fails with
      BadDate, a fault that is not a YAML::Exception. */
  lemma RejectedDateEscapes(k: SearchKey, text: string)
    requires k in {BeforeDate, OnDate, SinceDate} && FromString(text).None?
    ensures ParseCondition(Present(ConditionNode(TypeNameOf(k), Some(Scalar(text))))) == Err(BadDate(text))
    ensures !IsYamlException(BadDate(text))
  {
    KnownConditionReadsValue(k, Some(Scalar(text)));
  }

  /** A condition node written with a known key's type name is read with that
      key, and its value handle is the node's value or a missing one. */
  lemma KnownConditionReadsValue(k: SearchKey, v: Option<Node>)
    requires !k.Undefined?
    ensures ParseCondition(Present(ConditionNode(TypeNameOf(k), v))) ==
      ConditionValue(k, if v.Some? then Present(v.value) else Absent("value"))
  {
    KeyOfTypeName(k);
    ConditionNodeLookups(TypeNameOf(k), v);
  }

  /** A flag key given a value (NEW, RECENT, SEEN, UNSEEN) carries that value
      as text: the string branch comes before the flag branch. */
  lemma FlagWithValueGetsText(k: SearchKey, text: string)
    requires k in {New, Recent, Seen, Unseen}
    ensures ParseCondition(Present(ConditionNode(TypeNameOf(k), Some(Scalar(text))))) ==
      Ok(Condition(k, Text(text)))
  {
    KnownConditionReadsValue(k, Some(Scalar(text)));
    assert !(k == All || k == SidList || k == UidList || k == BeforeDate || k == OnDate || k == SinceDate);
    assert ConditionValue(k, Present(Scalar(text))) == Ok(Condition(k, Text(text)));
  }

  function ParseConditions(items: seq<Handle>): (r: Result<seq<Condition>, Fault>)
    ensures r.Ok? ==> |r.value| == |items|
    ensures r.Ok? ==> forall i :: 0 <= i < |items| ==> ParseCondition(items[i]) == Ok(r.value[i])
  {
    AllOk(seq(|items|, i requires 0 <= i < |items| => ParseCondition(items[i])))
  }

  const DefaultFolder: string := "inbox"

  /** Config::parseImapFilter: None without a `filter`; the folders default
      to ["inbox"] when missing or not a sequence; conditions are read only
      from a sequence. */
  function ParseImapFilter(server: Handle): (r: Result<Option<ImapFilter>, Fault>)
    ensures r.Ok? && r.value.None? ==> Get(server, "filter") == Ok(Absent("filter"))
    ensures Get(server, "filter") == Ok(Absent("filter")) ==> r == Ok(None)
    ensures Get(server, "filter").Err? ==> r.Err?
  {
    var fh :- Get(server, "filter");
    if !Defined(fh) then Ok(None)
    else
      var nh :- Get(fh, "name");
      var name :- AsString(nh);
      var foh := Child(fh, "folders");
      var folders :- if Defined(foh) && IsSeq(foh) then AsStringList(foh) else Ok([DefaultFolder]);
      var ch := Child(fh, "conditions");
      var conditions :- if Defined(ch) && IsSeq(ch) then ParseConditions(Elements(ch.node)) else Ok([]);
      Ok(Some(ImapFilter(name, folders, conditions)))
  }

  /** The folders of a filter: its own scalar list, or ["inbox"] when the
      document has no folders sequence. */
  lemma FilterFolders(name: string, folders: Option<Node>)
    ensures var entries := [("name", Scalar(name))] + (if folders.Some? then [("folders", folders.value)] else []);
      var r := ParseImapFilter(Present(Mapping([("filter", Mapping(entries))])));
      && (folders.None? || !folders.value.Sequence? ==> r == Ok(Some(ImapFilter(name, [DefaultFolder], []))))
      && (folders.Some? && folders.value.Sequence? && AsStringList(Present(folders.value)).Ok? ==>
            r == Ok(Some(ImapFilter(name, AsStringList(Present(folders.value)).value, []))))
  {
    var entries := [("name", Scalar(name))] + (if folders.Some? then [("folders", folders.value)] else []);
    var fh := Present(Mapping(entries));
    assert Get(Present(Mapping([("filter", Mapping(entries))])), "filter") == Ok(fh);
    assert Get(fh, "name") == Ok(Present(Scalar(name)));
    assert FindEntry(entries, "conditions") == None;
    assert Child(fh, "conditions") == Absent("conditions");
    if folders.Some? {
      assert FindEntry(entries, "folders") == Some(folders.value);
      assert Child(fh, "folders") == Present(folders.value);
    } else {
      assert FindEntry(entries, "folders") == None;
      assert Child(fh, "folders") == Absent("folders");
    }
  }

  // ---------------------------------------------------------------------------
  // Mailboxes and the SMTP details

  /** A name/address pair: the name is read first. */
  function ParseAddress(h: Handle): (r: Result<Address, Fault>)
    ensures r.Ok? ==> h.Present? && h.node.Mapping?
  {
    var nh :- Get(h, "name");
    var name :- AsString(nh);
    var address :- AsString(Child(h, "address"));
    Ok(Address(name, address))
  }

  function ParseMembers(items: seq<Node>): (r: Result<seq<Address>, Fault>)
    ensures r.Ok? ==> |r.value| == |items|
    decreases |items|
  {
    if items == [] then Ok([])
    else
      var a :- ParseAddress(Present(items[0]));
      var rest :- ParseMembers(items[1..]);
      Ok([a] + rest)
  }

  /** One item of a mailbox list added to what was gathered so far. */
  function AddMailboxItem(acc: Mailboxes, item: Node): (r: Result<Mailboxes, Fault>)
    ensures r.Ok? ==> acc.addresses <= r.value.addresses && acc.groups <= r.value.groups
    ensures r.Ok? ==> |r.value.addresses| + |r.value.groups| <= |acc.addresses| + |acc.groups| + 1
    ensures r.Ok? ==> forall g :: g in r.value.groups && g !in acc.groups ==> g.members != []
  {
    if !item.Mapping? then Ok(acc)
    else
      var ah := Child(Present(item), "address");
      if Defined(ah) then
        var a :- ParseAddress(Present(item));
        Ok(acc.(addresses := acc.addresses + [a]))
      else
        var gh := Child(Present(item), "group");
        var lh := Child(Present(item), "list");
        if Defined(gh) && Defined(lh) then
          var name :- AsString(gh);
          var members :- if IsSeq(lh) then ParseMembers(lh.node.items) else Ok([]);
          Ok(if members != [] then acc.(groups := acc.groups + [Group(name, members)]) else acc)
        else Ok(acc)
  }

  function AddMailboxItems(acc: Mailboxes, items: seq<Node>): (r: Result<Mailboxes, Fault>)
    ensures r.Ok? ==> forall g :: g in r.value.groups && g !in acc.groups ==> g.members != []
    decreases |items|
  {
    if items == [] then Ok(acc)
    else
      var acc' :- AddMailboxItem(acc, items[0]);
      AddMailboxItems(acc', items[1..])
  }

  /** Config::parseMailboxes: a non-sequence gives no mailboxes; items that
      are not maps are skipped; an item with `address` is an address, one with
      `group` and `list` a group when it has members. */
  function ParseMailboxes(h: Handle): (r: Result<Mailboxes, Fault>)
    ensures !IsSeq(h) ==> r == Ok(Mailboxes([], []))
    ensures r.Ok? ==> forall g :: g in r.value.groups ==> g.members != []
  {
    if !IsSeq(h) then Ok(Mailboxes([], []))
    else AddMailboxItems(Mailboxes([], []), h.node.items)
  }

  /** The document form of an address list. */
  function AddressNodes(addrs: seq<Address>): (ns: seq<Node>)
    ensures |ns| == |addrs|
  {
    if addrs == [] then []
    else [AddressNode(addrs[0])] + AddressNodes(addrs[1..])
  }

  function AddressNode(a: Address): Node {
    Mapping([("name", Scalar(a.name)), ("address", Scalar(a.address))])
  }

  /** One name/address map is one address. */
  lemma AddressItem(acc: Mailboxes, a: Address)
    ensures AddMailboxItem(acc, AddressNode(a)) == Ok(acc.(addresses := acc.addresses + [a]))
  {
    var n := AddressNode(a);
    var es := [("name", Scalar(a.name)), ("address", Scalar(a.address))];
    assert es[1..] == [("address", Scalar(a.address))];
    assert FindEntry(es[1..], "address") == Some(Scalar(a.address));
    assert FindEntry(es, "address") == Some(Scalar(a.address));
    assert Child(Present(n), "address") == Present(Scalar(a.address));
    assert Get(Present(n), "name") == Ok(Present(Scalar(a.name)));
    assert ParseAddress(Present(n)) == Ok(a);
  }

  lemma {:induction false} AddressItemsRoundTrip(acc: Mailboxes, addrs: seq<Address>)
    ensures AddMailboxItems(acc, AddressNodes(addrs)) == Ok(acc.(addresses := acc.addresses + addrs))
    decreases |addrs|
  {
    if addrs != [] {
      AddressNodesHead(acc, addrs);
      var items := AddressNodes(addrs);
      var acc' := acc.(addresses := acc.addresses + [addrs[0]]);
      AddMailboxItemsStep(acc, items);
      AddressItemsRoundTrip(acc', addrs[1..]);
      var rest := AddMailboxItems(acc', AddressNodes(addrs[1..]));
      assert AddMailboxItems(acc, items) == rest;
      AppendHeadTail(acc.addresses, addrs);
      assert rest == Ok(acc.(addresses := acc.addresses + addrs));
    } else {
      assert acc.addresses + addrs == acc.addresses;
    }
  }

  lemma AddressNodesHead(acc: Mailboxes, addrs: seq<Address>)
    requires addrs != []
    ensures AddMailboxItem(acc, AddressNodes(addrs)[0]) == Ok(acc.(addresses := acc.addresses + [addrs[0]]))
    ensures AddressNodes(addrs)[1..] == AddressNodes(addrs[1..])
  {
    AddressItem(acc, addrs[0]);
  }

  /** The first item that is read continues the walk from what it added. */
  lemma AddMailboxItemsStep(acc: Mailboxes, items: seq<Node>)
    requires items != [] && AddMailboxItem(acc, items[0]).Ok?
    ensures AddMailboxItems(acc, items) == AddMailboxItems(AddMailboxItem(acc, items[0]).value, items[1..])
  {
  }

  /** A list of name/address maps reads back as exactly those addresses, in
      order, and no groups. */
  lemma MailboxesRoundTrip(addrs: seq<Address>)
    ensures ParseMailboxes(Present(Sequence(AddressNodes(addrs)))) == Ok(Mailboxes(addrs, []))
  {
    AddressItemsRoundTrip(Mailboxes([], []), addrs);
    assert [] + addrs == addrs;
  }

  /** A group whose list is empty or not a sequence is dropped. */
  lemma EmptyGroupDropped(acc: Mailboxes, name: string, list: Node)
    requires !list.Sequence? || list.items == []
    ensures AddMailboxItem(acc, Mapping([("group", Scalar(name)), ("list", list)])) == Ok(acc)
  {
  }

  /** Config::parseSmtpConfig. `from` and `to` mark the details as filled;
      without either, the uninitialised flag decides, given here as
      `unsetFlag`. */
  function ParseSmtpDetails(smtp: Handle, unsetFlag: bool): (r: Result<Option<SmtpDetails>, Fault>)
    ensures r.Ok? ==> smtp.Present? && !smtp.node.Scalar?
    ensures r.Ok? && r.value.Some? ==> (r.value.value.from.Some? <==> Defined(Child(smtp, "from")))
  {
    var fh :- Get(smtp, "from");
    var from :- if Defined(fh) then (var a :- ParseAddress(fh); Ok(Some(a))) else Ok(None);
    var th := Child(smtp, "to");
    var to :- if Defined(th) then ParseMailboxes(th) else Ok(Mailboxes([], []));
    var cch := Child(smtp, "cc");
    var cc :- if Defined(cch) then ParseMailboxes(cch) else Ok(Mailboxes([], []));
    var bcch := Child(smtp, "bcc");
    var bcc :- if Defined(bcch) then ParseMailboxes(bcch) else Ok(Mailboxes([], []));
    var filled := Defined(fh) || Defined(th) || unsetFlag;
    Ok(if filled then Some(SmtpDetails(from, to, cc, bcc)) else None)
  }

  /** With `from` or `to` given, the details are present whatever the
      uninitialised flag holds; with only cc or bcc, the flag decides. */
  lemma SmtpDetailsFilled(smtp: Handle, unsetFlag: bool)
    requires ParseSmtpDetails(smtp, unsetFlag).Ok?
    ensures Defined(Child(smtp, "from")) || Defined(Child(smtp, "to")) ==>
      ParseSmtpDetails(smtp, unsetFlag).value.Some?
    ensures !Defined(Child(smtp, "from")) && !Defined(Child(smtp, "to")) ==>
      (ParseSmtpDetails(smtp, unsetFlag).value.Some? <==> unsetFlag)
  {
  }

  // ---------------------------------------------------------------------------
  // loadConfig

  const DefaultTimeout: int := 30
  const DefaultLogLevel: string := "info"
  const DefaultWorkDir: string := "/tmp"
  const DefaultSecurity: string := "plain"
  const DefaultAuthMethod: string := "login"

  /** The `global` block: read with defaults only when it exists; the check
      interval and the endpoint are never read. */
  function ParseGlobal(g: GlobalConfig, root: Node): (r: Result<GlobalConfig, Fault>)
    ensures r.Ok? ==> r.value.zeromqEndpoint == g.zeromqEndpoint
    ensures r.Ok? ==> r.value.checkMailIntervalMs == g.checkMailIntervalMs
    ensures !HasKey(root, "global") && !root.Scalar? ==> r == Ok(g)
  {
    var gh :- Get(Present(root), "global");
    if !Defined(gh) then Ok(g)
    else
      var th :- Get(gh, "default_timeout");
      var lh := Child(gh, "log_level");
      var wh := Child(gh, "work_dir");
      Ok(g.(defaultTimeout := AsIntOr(th, DefaultTimeout),
            logLevel := AsStringOr(lh, DefaultLogLevel),
            workDir := AsStringOr(wh, DefaultWorkDir)))
  }

  /** An empty `global` map gives the three defaults. */
  lemma GlobalDefaults(g: GlobalConfig, rest: seq<(string, Node)>)
    ensures ParseGlobal(g, Mapping([("global", Mapping([]))] + rest)) ==
      Ok(g.(defaultTimeout := DefaultTimeout, logLevel := DefaultLogLevel, workDir := DefaultWorkDir))
  {
    assert Get(Present(Mapping([("global", Mapping([]))] + rest)), "global") == Ok(Present(Mapping([])));
  }

  /** A `global:` key with nothing after it is defined but null: every lookup in
      it misses, so the three defaults apply exactly as for an empty map. */
  lemma GlobalNullDefaults(g: GlobalConfig, rest: seq<(string, Node)>)
    ensures ParseGlobal(g, Mapping([("global", Null)] + rest)) ==
      Ok(g.(defaultTimeout := DefaultTimeout, logLevel := DefaultLogLevel, workDir := DefaultWorkDir))
  {
    assert Get(Present(Mapping([("global", Null)] + rest)), "global") == Ok(Present(Null));
  }

  /** default_timeout written in decimal is taken when it fits an int; a value
      outside int's range falls back to 30 like any failed conversion. */
  lemma TimeoutRange(g: GlobalConfig, n: int)
    ensures ParseGlobal(g, Mapping([("global", Mapping([("default_timeout", Scalar(DecimalText(n)))]))])) ==
      Ok(g.(defaultTimeout := if IntMin <= n <= IntMax then n else DefaultTimeout,
            logLevel := DefaultLogLevel, workDir := DefaultWorkDir))
  {
    ParseIntDecimal(n);
    var inner := Mapping([("default_timeout", Scalar(DecimalText(n)))]);
    assert Get(Present(Mapping([("global", inner)])), "global") == Ok(Present(inner));
    assert Get(Present(inner), "default_timeout") == Ok(Present(Scalar(DecimalText(n))));
  }

  /** One protocol block. */
  function ParseProtocol(h: Handle): (r: Result<ProtocolConfig, Fault>)
    ensures r.Ok? ==> h.Present? && h.node.Mapping?
    ensures r.Ok? && !HasKey(h.node, "security") ==> r.value.security == DefaultSecurity
    ensures r.Ok? && !HasKey(h.node, "auth_method") ==> r.value.authMethod == DefaultAuthMethod
  {
    var hh :- Get(h, "host");
    var host :- AsString(hh);
    var port :- AsInt(Child(h, "port"));
    var sh := Child(h, "security");
    var ah := Child(h, "auth_method");
    Ok(ProtocolConfig(host, port, AsStringOr(sh, DefaultSecurity), AsStringOr(ah, DefaultAuthMethod)))
  }

  /** A block of just host and port: the port's conversion decides the outcome. */
  lemma HostPortBlock(host: string, port: string)
    ensures ParseProtocol(Present(Mapping([("host", Scalar(host)), ("port", Scalar(port))]))) ==
      match ParseInt(port)
      case Some(p) => Ok(ProtocolConfig(host, p, DefaultSecurity, DefaultAuthMethod))
      case None => Err(BadConversion)
  {
    var es := [("host", Scalar(host)), ("port", Scalar(port))];
    assert Get(Present(Mapping(es)), "host") == Ok(Present(Scalar(host)));
    assert FindEntry(es[1..], "port") == Some(Scalar(port));
    assert Get(Present(Mapping(es)), "port") == Ok(Present(Scalar(port)));
    assert FindEntry(es, "security") == None;
    assert FindEntry(es, "auth_method") == None;
  }

  /** A port written in decimal loads when it fits an int; otherwise the
      conversion throws and the block fails. */
  lemma PortRange(host: string, n: int)
    ensures var r := ParseProtocol(Present(Mapping([("host", Scalar(host)), ("port", Scalar(DecimalText(n)))])));
      && (r.Ok? <==> IntMin <= n <= IntMax)
      && (r.Ok? ==> r.value == ProtocolConfig(host, n, DefaultSecurity, DefaultAuthMethod))
      && (r.Err? ==> r.error == BadConversion)
  {
    ParseIntDecimal(n);
    HostPortBlock(host, DecimalText(n));
  }

  /** username and password, both required. */
  function ParseCredentials(h: Handle): (r: Result<(string, string), Fault>)
    ensures r.Ok? ==> h.Present? && !h.node.Scalar?
    ensures r.Ok? ==> AsString(Child(h, "username")) == Ok(r.value.0)
    ensures r.Ok? ==> AsString(Child(h, "password")) == Ok(r.value.1)
  {
    var uh :- Get(h, "username");
    var user :- AsString(uh);
    var password :- AsString(Child(h, "password"));
    Ok((user, password))
  }

  /** One entry of `accounts`. */
  function ParseAccount(item: Handle, env: map<string, string>, unsetFlag: bool): (r: Result<Account, Fault>)
    ensures r.Ok? ==> item.Present? && item.node.Mapping? && HasKey(item.node, "name") && HasKey(item.node, "protocol")
    ensures r.Ok? && !HasKey(item.node, "default_folder") ==> r.value.defaultFolder == DefaultFolder
  {
    var nh :- Get(item, "name");
    var name :- AsString(nh);
    var proto := Child(item, "protocol");
    var sh :- Get(proto, "smtp");
    var smtpServer :- if Defined(sh) then (var p :- ParseProtocol(sh); Ok(Some(p))) else Ok(None);
    var details :- if Defined(sh) then ParseSmtpDetails(sh, unsetFlag) else Ok(None);
    var ih := Child(proto, "imap");
    var imapServer :- if Defined(ih) then (var p :- ParseProtocol(ih); Ok(Some(p))) else Ok(None);
    var filter :- if Defined(ih) then ParseImapFilter(ih) else Ok(None);
    var ch := Child(item, "credentials");
    var creds :- if Defined(ch) then ParseCredentials(ch) else Ok(("", ""));
    var password := if Defined(ch) then SubstitutePassword(creds.1, env) else creds.1;
    Ok(Account(name, smtpServer, imapServer, filter, details, creds.0, password,
               AsStringOr(Child(item, "default_folder"), DefaultFolder)))
  }

  /** An account whose `protocol:` is null loads with neither server, no
      filter, no SMTP details and the default folder. */
  lemma NullProtocolAccount(name: string, env: map<string, string>, unsetFlag: bool)
    ensures ParseAccount(Present(Mapping([("name", Scalar(name)), ("protocol", Null)])), env, unsetFlag) ==
      Ok(Account(name, None, None, None, None, "", "", DefaultFolder))
  {
    var es := [("name", Scalar(name)), ("protocol", Null)];
    assert Get(Present(Mapping(es)), "name") == Ok(Present(Scalar(name)));
    assert FindEntry(es[1..], "protocol") == Some(Null);
    assert Get(Present(Mapping(es)), "protocol") == Ok(Present(Null));
    assert FindEntry(es, "credentials") == None;
    assert FindEntry(es, "default_folder") == None;
  }

  function AccountResults(items: seq<Handle>, env: map<string, string>, unsetFlag: bool): (r: seq<Result<Account, Fault>>)
    ensures |r| == |items|
    ensures forall i :: 0 <= i < |items| ==> r[i] == ParseAccount(items[i], env, unsetFlag)
  {
    seq(|items|, i requires 0 <= i < |items| => ParseAccount(items[i], env, unsetFlag))
  }

  /** Append accounts until the first failure, which ends the load. */
  function PushAccounts(accs: seq<Account>, results: seq<Result<Account, Fault>>): (r: (seq<Account>, Option<Fault>))
    ensures accs <= r.0
    decreases |results|
  {
    if results == [] then (accs, None)
    else match results[0]
      case Err(f) => (accs, Some(f))
      case Ok(a) => PushAccounts(accs + [a], results[1..])
  }

  /** The accounts of successful results. */
  function Accounts(results: seq<Result<Account, Fault>>): seq<Account>
    requires forall i :: 0 <= i < |results| ==> results[i].Ok?
  {
    if results == [] then [] else [results[0].value] + Accounts(results[1..])
  }

  /** Accounts before the first failing one are kept and nothing after it is
      read. */
  lemma {:induction false} FailingAccountKeepsEarlier(accs: seq<Account>, results: seq<Result<Account, Fault>>, k: nat)
    requires k < |results| && results[k].Err?
    requires forall i :: 0 <= i < k ==> results[i].Ok?
    ensures PushAccounts(accs, results) == (accs + Accounts(results[..k]), Some(results[k].error))
    decreases k
  {
    if k == 0 {
      assert accs + Accounts(results[..0]) == accs;
    } else {
      FailingAccountKeepsEarlier(accs + [results[0].value], results[1..], k - 1);
      assert results[1..][..k - 1] == results[..k][1..];
      assert Accounts(results[..k]) == [results[0].value] + Accounts(results[..k][1..]);
      assert accs + [results[0].value] + Accounts(results[1..][..k - 1]) == accs + Accounts(results[..k]);
    }
  }

  /** With no failure every account is appended, in document order. */
  lemma {:induction false} AllAccountsPushed(accs: seq<Account>, results: seq<Result<Account, Fault>>)
    requires forall i :: 0 <= i < |results| ==> results[i].Ok?
    ensures PushAccounts(accs, results) == (accs + Accounts(results), None)
    decreases |results|
  {
    if results == [] {
      assert accs + Accounts(results) == accs;
    } else {
      AllAccountsPushed(accs + [results[0].value], results[1..]);
      assert PushAccounts(accs, results) == PushAccounts(accs + [results[0].value], results[1..]);
      assert Accounts(results) == [results[0].value] + Accounts(results[1..]);
      assert accs + [results[0].value] + Accounts(results[1..]) == accs + Accounts(results);
    }
  }

  /** Config::loadConfig, with the outcome: the configuration and environment
      afterwards, and the exception that ended it early, if any. The handler
      logs a fault that IsYamlException accepts; a BadDate leaves loadConfig
      and Config::getInstance with the state as it was at the throw. */
  function LoadConfig(c: Configuration, file: Load, env: map<string, string>, files: EnvFiles, unsetFlag: bool)
    : (r: (Configuration, map<string, string>, Option<Fault>))
    ensures c.accounts <= r.0.accounts
    ensures r.0.global.zeromqEndpoint == c.global.zeromqEndpoint
    ensures r.0.global.checkMailIntervalMs == c.global.checkMailIntervalMs
    ensures file.LoadFailed? ==> r == (c, env, Some(file.fault))
  {
    match file
    case LoadFailed(f) => (c, env, Some(f))
    case Loaded(root) =>
      match ParseGlobal(c.global, root)
      case Err(f) => (c, env, Some(f))
      case Ok(g) =>
        var c1 := c.(global := g);
        var env1 := LoadDotEnv(env, g.workDir, files);
        match Get(Present(root), "accounts")
        case Err(f) => (c1, env1, Some(f))
        case Ok(ah) =>
          if !Defined(ah) then (c1, env1, None)
          else
            var (accs, fault) := PushAccounts(c.accounts, AccountResults(Elements(ah.node), env1, unsetFlag));
            (c1.(accounts := accs), env1, fault)
  }

  /** The items of `accounts`, when the root has it. */
  function AccountItems(root: Node): seq<Handle> {
    match Get(Present(root), "accounts")
    case Ok(Present(n)) => Elements(n)
    case _ => []
  }

  /** PushAccounts reports no fault exactly when every result is an account. */
  lemma {:induction false} PushAccountsNoFault(accs: seq<Account>, results: seq<Result<Account, Fault>>)
    ensures PushAccounts(accs, results).1.None? <==> forall i :: 0 <= i < |results| ==> results[i].Ok?
    decreases |results|
  {
    if results != [] && results[0].Ok? {
      PushAccountsNoFault(accs + [results[0].value], results[1..]);
      assert forall i :: 1 <= i < |results| ==> results[i] == results[1..][i - 1];
    }
  }

  /** A load that ends without an exception appends one account per element
      of `accounts`, in document order, after the accounts already held. */
  lemma LoadAppends(c: Configuration, root: Node, env: map<string, string>, files: EnvFiles, unsetFlag: bool)
    ensures var (c', env', f) := LoadConfig(c, Loaded(root), env, files, unsetFlag);
      var rs := AccountResults(AccountItems(root), env', unsetFlag);
      f.None? ==> (forall i :: 0 <= i < |rs| ==> rs[i].Ok?) && c'.accounts == c.accounts + Accounts(rs)
  {
    var (c', env', f) := LoadConfig(c, Loaded(root), env, files, unsetFlag);
    var rs := AccountResults(AccountItems(root), env', unsetFlag);
    if f.None? {
      var ah := Get(Present(root), "accounts").value;
      if Defined(ah) {
        PushAccountsNoFault(c.accounts, rs);
        AllAccountsPushed(c.accounts, rs);
      } else {
        assert c.accounts + Accounts(rs) == c.accounts;
      }
    }
  }

  /** Loading is never a reset: a second load keeps the first load's accounts,
      and when it completes, appends its own after them. */
  lemma SecondLoadAppends(root1: Node, root2: Node, env: map<string, string>, files: EnvFiles, unsetFlag: bool)
    requires !root1.Scalar? && !root2.Scalar?
    ensures var (c1, env1, f1) := LoadConfig(InitialConfiguration(), Loaded(root1), env, files, unsetFlag);
      var (c2, env2, f2) := LoadConfig(c1, Loaded(root2), env1, files, unsetFlag);
      var rs := AccountResults(AccountItems(root2), env2, unsetFlag);
      && c1.accounts <= c2.accounts
      && (f2.None? ==> (forall i :: 0 <= i < |rs| ==> rs[i].Ok?) && c2.accounts == c1.accounts + Accounts(rs))
  {
    var (c1, env1, f1) := LoadConfig(InitialConfiguration(), Loaded(root1), env, files, unsetFlag);
    LoadAppends(c1, root2, env1, files, unsetFlag);
  }

  /** Without a `global` block the static instance's zeroes stay: timeout 0,
      log level, work directory and endpoint empty. */
  lemma MissingGlobalKeepsZeroes(root: Node, env: map<string, string>, files: EnvFiles, unsetFlag: bool)
    requires root.Mapping? && !HasKey(root, "global")
    ensures LoadConfig(InitialConfiguration(), Loaded(root), env, files, unsetFlag).0.global ==
      GlobalConfig(0, "", "", "", 0)
  {
  }

  /** Config::getAccountByName: the first account with that name. */
  function GetAccountByName(c: Configuration, name: string): (r: Option<Account>)
    ensures r.None? <==> forall i :: 0 <= i < |c.accounts| ==> c.accounts[i].name != name
    ensures r.Some? ==> exists i :: (0 <= i < |c.accounts| && c.accounts[i] == r.value && r.value.name == name &&
        forall j :: 0 <= j < i ==> c.accounts[j].name != name)
  {
    FirstNamed(c.accounts, name)
  }

  function FirstNamed(accs: seq<Account>, name: string): (r: Option<Account>)
    ensures r.None? <==> forall i :: 0 <= i < |accs| ==> accs[i].name != name
    ensures r.Some? ==> exists i :: (0 <= i < |accs| && accs[i] == r.value && r.value.name == name &&
        forall j :: 0 <= j < i ==> accs[j].name != name)
  {
    if accs == [] then None
    else if accs[0].name == name then Some(accs[0])
    else
      var r := FirstNamed(accs[1..], name);
      FirstNamedShift(accs, name, r);
      r
  }

  lemma FirstNamedShift(accs: seq<Account>, name: string, r: Option<Account>)
    requires accs != [] && accs[0].name != name
    requires r.Some? ==> exists i :: (0 <= i < |accs[1..]| && accs[1..][i] == r.value && r.value.name == name &&
        forall j :: 0 <= j < i ==> accs[1..][j].name != name)
    ensures r.Some? ==> exists i :: (0 <= i < |accs| && accs[i] == r.value && r.value.name == name &&
        forall j :: 0 <= j < i ==> accs[j].name != name)
  {
    if r.Some? {
      var i :| 0 <= i < |accs[1..]| && accs[1..][i] == r.value && r.value.name == name &&
        forall j :: 0 <= j < i ==> accs[1..][j].name != name;
      assert accs[i + 1] == r.value;
      assert forall j :: 0 <= j < i + 1 ==> accs[j].name != name by {
        forall j | 0 <= j < i + 1 ensures accs[j].name != name {
          if j > 0 { assert accs[j] == accs[1..][j - 1]; }
        }
      }
    }
  }
}
