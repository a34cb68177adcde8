/** The pure parts of the mail client (src/mail.cpp): how an error text is
    classified, how an attachment's MIME string becomes a content type (the
    top-level media types of section 5.1 of RFC 2045), which authentication
    method each connection kind uses, the folder label, the shape of what
    getByFilter returns, and the shape of a temporary file name. The IMAP and
    SMTP sessions themselves are not modelled: what a session did is an
    input. */
module Mail {
  import opened Common
  import opened Config

  // ---------------------------------------------------------------------------
  // Errors

  /** ErrorCode of include/config.h. */
  datatype ErrorCode =
    | Network | Rejection | BadConfig | MemoryError | FileAlreadyExists
    | FileOpenFailed | FileCreateFailed | FileCloseFailed | UnarchiveFailed
    | NoNewMail | Unknown

  /** Error of include/config.h: a code and a message. */
  datatype MailError = MailError(code: ErrorCode, message: string)

  /** Mail::parseError: the message kept verbatim, classified by what its
      lower-cased text contains, "network" before "rejection". */
  function ParseError(what: string): (e: MailError)
    ensures e.message == what
    ensures e.code == Network <==> Contains(ToLower(what), "network")
    ensures e.code == Rejection <==> !Contains(ToLower(what), "network") && Contains(ToLower(what), "rejection")
    ensures e.code == Network || e.code == Rejection || e.code == Unknown
  {
    var lower := ToLower(what);
    if Contains(lower, "network") then MailError(Network, what)
    else if Contains(lower, "rejection") then MailError(Rejection, what)
    else MailError(Unknown, what)
  }

  lemma LowerCharIdempotent(c: char)
    ensures LowerChar(LowerChar(c)) == LowerChar(c)
  {
  }

  lemma ToLowerIdempotent(s: string)
    ensures ToLower(ToLower(s)) == ToLower(s)
  {
    forall i | 0 <= i < |s| ensures ToLower(ToLower(s))[i] == ToLower(s)[i] {
      LowerCharIdempotent(s[i]);
    }
  }

  /** Lower-casing a message does not change its classification. */
  lemma ParseErrorIgnoresCase(what: string)
    ensures ParseError(ToLower(what)).code == ParseError(what).code
  {
    ToLowerIdempotent(what);
  }

  lemma ToLowerConcat(a: string, b: string)
    ensures ToLower(a + b) == ToLower(a) + ToLower(b)
  {
    var l, r := ToLower(a + b), ToLower(a) + ToLower(b);
    assert |l| == |r|;
    forall i | 0 <= i < |a| ensures l[i] == r[i] {
      assert (a + b)[i] == a[i];
    }
    forall i | |a| <= i < |l| ensures l[i] == r[i] {
      assert (a + b)[i] == b[i - |a|];
    }
  }

  /** A message that says NETWORK anywhere, in any case, is a network error,
      whatever else it says. */
  lemma ShoutedNetworkIsNetwork(before: string, after: string)
    ensures ParseError(before + "NETWORK" + after).code == Network
  {
    ToLowerConcat(before + "NETWORK", after);
    ToLowerConcat(before, "NETWORK");
    var lower := ToLower(before + "NETWORK" + after);
    assert ToLower("NETWORK") == "network";
    assert lower == ToLower(before) + "network" + ToLower(after);
    assert lower[|before|..|before| + 7] == "network";
    assert OccursAt(lower, "network", |before|);
    ContainsIff(lower, "network");
  }

  // ---------------------------------------------------------------------------
  // Attachments

  /** mailio's media_type_t values that prepareAttachment distinguishes. */
  datatype MediaType = TextType | ImageType | AudioType | VideoType | ApplicationType | MultipartType | MessageType

  datatype ContentType = ContentType(media: MediaType, subtype: string)

  const PlainText: ContentType := ContentType(TextType, "plain")

  /** The top-level type names of section 5.1 of RFC 2045. */
  function MediaTypeName(m: MediaType): string {
    match m
    case TextType => "text"
    case ImageType => "image"
    case AudioType => "audio"
    case VideoType => "video"
    case ApplicationType => "application"
    case MultipartType => "multipart"
    case MessageType => "message"
  }

  /** The media type a (lower-cased) top-level name stands for, if any. */
  function MajorType(name: string): (r: Option<MediaType>)
    ensures r.Some? ==> MediaTypeName(r.value) == name
    ensures r.None? ==> forall m :: MediaTypeName(m) != name
  {
    if name == "text" then Some(TextType)
    else if name == "image" then Some(ImageType)
    else if name == "audio" then Some(AudioType)
    else if name == "video" then Some(VideoType)
    else if name == "application" then Some(ApplicationType)
    else if name == "multipart" then Some(MultipartType)
    else if name == "message" then Some(MessageType)
    else None
  }

  /** The MIME classification in prepareAttachment: lower-case the string,
      split at the first '/', keep the subtype under a known top-level type;
      an unknown top-level type or a string without '/' is text/plain. */
  function Classify(mime: string): (c: ContentType)
    ensures NoUpper(c.subtype)
    ensures c == PlainText || ToLower(mime) == MediaTypeName(c.media) + "/" + c.subtype
    ensures (forall j :: 0 <= j < |mime| ==> mime[j] != '/') ==> c == PlainText
  {
    var lower := ToLower(mime);
    ToLowerHasNoUpper(mime);
    match FindChar(lower, '/')
    case None => PlainText
    case Some(i) =>
      assert mime[i] == '/' by { assert LowerChar(mime[i]) == '/'; }
      ClassifyAt(lower, i)
  }

  /** The classification of a lower-cased string once its first '/' is
      found at i. */
  function ClassifyAt(lower: string, i: nat): (c: ContentType)
    requires NoUpper(lower) && i < |lower| && lower[i] == '/'
    ensures NoUpper(c.subtype)
    ensures c == PlainText || lower == MediaTypeName(c.media) + "/" + c.subtype
  {
    match MajorType(lower[..i])
    case None => PlainText
    case Some(m) =>
      SplitAround(lower, i);
      NoUpperSuffix(lower, i + 1);
      ContentType(m, lower[i + 1..])
  }

  lemma SplitAround(s: string, i: nat)
    requires i < |s| && s[i] == '/'
    ensures s == s[..i] + "/" + s[i + 1..]
  {
  }

  /** Lower-casing keeps the first '/' where it was, and lower-cases the two
      sides separately. */
  lemma LowerSplit(major: string, subtype: string)
    requires forall j :: 0 <= j < |major| ==> major[j] != '/'
    ensures var lower := ToLower(major + "/" + subtype);
      && FindChar(lower, '/') == Some(|major|)
      && lower[..|major|] == ToLower(major)
      && lower[|major| + 1..] == ToLower(subtype)
  {
    var n := |major|;
    var lowerMajor := ToLower(major);
    var lower := ToLower(major + "/" + subtype);
    ToLowerConcat(major + "/", subtype);
    ToLowerConcat(major, "/");
    assert ToLower("/") == "/";
    assert lower == lowerMajor + "/" + ToLower(subtype);
    forall j | 0 <= j < n ensures lower[j] != '/' {
      assert lower[j] == lowerMajor[j] == LowerChar(major[j]);
    }
    FindCharAt(lower, '/', n);
    assert lower[..n] == lowerMajor;
    assert lower[n + 1..] == ToLower(subtype);
  }

  lemma MajorTypeOfName(m: MediaType)
    ensures MajorType(MediaTypeName(m)) == Some(m)
    ensures NoUpper(MediaTypeName(m)) && forall j :: 0 <= j < |MediaTypeName(m)| ==> MediaTypeName(m)[j] != '/'
  {
  }

  /** A known top-level type name followed by '/' and any subtype (which may
      itself hold '/') is read back as that type, the subtype lower-cased. */
  lemma ClassifyRoundTrip(m: MediaType, subtype: string)
    ensures Classify(MediaTypeName(m) + "/" + subtype) == ContentType(m, ToLower(subtype))
  {
    MajorTypeOfName(m);
    ToLowerOfNoUpper(MediaTypeName(m));
    LowerSplit(MediaTypeName(m), subtype);
  }

  /** A top-level name that is not one of the seven (in any case) gives
      text/plain whatever the subtype. */
  lemma UnknownMajorIsPlain(major: string, subtype: string)
    requires forall j :: 0 <= j < |major| ==> major[j] != '/'
    requires MajorType(ToLower(major)).None?
    ensures Classify(major + "/" + subtype) == PlainText
  {
    LowerSplit(major, subtype);
  }

  /** Classification ignores case. */
  lemma ClassifyIgnoresCase(mime: string)
    ensures Classify(ToLower(mime)) == Classify(mime)
  {
    ToLowerIdempotent(mime);
  }

  /** A file to attach: its path and its MIME string. */
  datatype FileSpec = FileSpec(path: string, mime: string)

  /** An attachment: the name it is sent under and its content type. */
  datatype Attachment = Attachment(name: string, contentType: ContentType)

  /** std::filesystem::path::filename on a POSIX path: what follows the last
      '/'. */
  function FileName(path: string): (r: string)
    ensures IsSuffix(r, path)
    ensures forall j :: 0 <= j < |r| ==> r[j] != '/'
    ensures |r| < |path| ==> path[|path| - |r| - 1] == '/'
  {
    AfterLast(path, '/')
  }

  /** std::filesystem::path's operator/ on POSIX paths: an absolute right-hand
      side replaces the left; otherwise a separator is added unless the left
      is empty or already ends with one. */
  function PathJoin(dir: string, name: string): (r: string)
    ensures IsSuffix(name, r)
    ensures name != [] ==> r != []
  {
    if name != [] && name[0] == '/' then name
    else if dir == [] || dir[|dir| - 1] == '/' then dir + name
    else dir + "/" + name
  }

  /** Two slash-free suffixes of a path that each start the path or follow a
      '/' are the same suffix. */
  lemma SlashFreeSuffixUnique(p: string, a: string, b: string)
    requires IsSuffix(a, p) && forall j :: 0 <= j < |a| ==> a[j] != '/'
    requires |a| < |p| ==> p[|p| - |a| - 1] == '/'
    requires IsSuffix(b, p) && forall j :: 0 <= j < |b| ==> b[j] != '/'
    requires |b| < |p| ==> p[|p| - |b| - 1] == '/'
    ensures a == b
  {
    assert forall j :: |p| - |a| <= j < |p| ==> p[j] == a[j - (|p| - |a|)];
    assert forall j :: |p| - |b| <= j < |p| ==> p[j] == b[j - (|p| - |b|)];
    assert |a| == |b|;
  }

  /** Joining a plain name puts it at the end, right after a '/' unless it
      is the whole path. */
  lemma JoinEndsWithName(dir: string, name: string)
    requires name != [] && name[0] != '/'
    ensures var p := PathJoin(dir, name);
      IsSuffix(name, p) && (|name| < |p| ==> p[|p| - |name| - 1] == '/')
  {
  }

  /** Round trip: the file name of a directory joined with a plain name is
      that name. */
  lemma FileNameOfJoin(dir: string, name: string)
    requires name != [] && forall j :: 0 <= j < |name| ==> name[j] != '/'
    ensures FileName(PathJoin(dir, name)) == name
  {
    var p := PathJoin(dir, name);
    JoinEndsWithName(dir, name);
    SlashFreeSuffixUnique(p, FileName(p), name);
  }

  /** Mail::prepareAttachment: one attachment per file, in order, named by
      the path's file name and typed by its MIME string. */
  function PrepareAttachments(files: seq<FileSpec>): (r: seq<Attachment>)
    ensures |r| == |files|
    ensures forall i :: 0 <= i < |files| ==>
      r[i] == Attachment(FileName(files[i].path), Classify(files[i].mime))
  {
    seq(|files|, i requires 0 <= i < |files| => Attach(files[i]))
  }

  /** The attachment made of one file. */
  function Attach(f: FileSpec): Attachment {
    Attachment(FileName(f.path), Classify(f.mime))
  }

  /** A file stored as dir/name with a known MIME type is attached as name,
      under that type. */
  lemma AttachmentRoundTrip(dir: string, name: string, m: MediaType, subtype: string)
    requires name != [] && forall j :: 0 <= j < |name| ==> name[j] != '/'
    ensures PrepareAttachments([FileSpec(PathJoin(dir, name), MediaTypeName(m) + "/" + subtype)]) ==
      [Attachment(name, ContentType(m, ToLower(subtype)))]
  {
    FileNameOfJoin(dir, name);
    ClassifyRoundTrip(m, subtype);
  }

  // ---------------------------------------------------------------------------
  // Authentication

  /** The four connection kinds of the Protocol variant. */
  datatype Protocol = Smtp | Smtps | Imap | Imaps

  datatype AuthMethod = NoAuth | Login | StartTls

  /** send and getByFilter open the TLS kind exactly when security is "ssl". */
  function SmtpConnection(p: ProtocolConfig): (c: Protocol)
    ensures c == Smtps <==> p.security == "ssl"
    ensures c == Smtp || c == Smtps
  {
    if p.security == "ssl" then Smtps else Smtp
  }

  function ImapConnection(p: ProtocolConfig): (c: Protocol)
    ensures c == Imaps <==> p.security == "ssl"
    ensures c == Imap || c == Imaps
  {
    if p.security == "ssl" then Imaps else Imap
  }

  /** Mail::authenticate's choice of method from the configured auth_method:
      plain SMTP logs in only when asked to; SMTPS prefers START_TLS to LOGIN
      and otherwise uses none; IMAPS uses START_TLS when asked to and LOGIN
      otherwise; plain IMAP always logs in. */
  function SelectAuth(c: Protocol, configured: string): (a: AuthMethod)
    ensures c == Imap ==> a == Login
    ensures c == Smtp ==> a != StartTls && (a == Login <==> Contains(ToLower(configured), "login"))
    ensures c == Smtps ==> (a == StartTls <==> Contains(ToLower(configured), "start_tls"))
    ensures c == Smtps ==> (a == Login <==> !Contains(ToLower(configured), "start_tls") && Contains(ToLower(configured), "login"))
    ensures c == Imaps ==> a != NoAuth && (a == StartTls <==> Contains(ToLower(configured), "start_tls"))
  {
    var lower := ToLower(configured);
    match c
    case Smtp => (if Contains(lower, "login") then Login else NoAuth)
    case Smtps =>
      (if Contains(lower, "start_tls") then StartTls
       else if Contains(lower, "login") then Login
       else NoAuth)
    case Imaps => (if Contains(lower, "start_tls") then StartTls else Login)
    case Imap => Login
  }

  /** The method used for a connection: SMTP kinds read the account's smtp
      settings, IMAP kinds its imap settings. An account whose document gave
      no such protocol has the default-constructed settings, with an empty
      auth_method. */
  function AuthFor(a: Account, c: Protocol): (m: AuthMethod)
    ensures c == Imap ==> m == Login
    ensures (c == Smtp || c == Smtps) ==> m == SelectAuth(c, Settings(a.smtpServer).authMethod)
    ensures (c == Imap || c == Imaps) ==> m == SelectAuth(c, Settings(a.imapServer).authMethod)
  {
    if c == Smtp || c == Smtps then SelectAuth(c, Settings(a.smtpServer).authMethod)
    else SelectAuth(c, Settings(a.imapServer).authMethod)
  }

  /** A ProtocolConfig as the C++ account holds it. */
  function Settings(p: Option<ProtocolConfig>): (s: ProtocolConfig)
    ensures p.Some? ==> s == p.value
    ensures p.None? ==> s.security == "" && s.authMethod == ""
  {
    match p
    case Some(c) => c
    case None => ProtocolConfig("", 0, "", "")
  }

  /** The choice ignores case. */
  lemma SelectAuthIgnoresCase(c: Protocol, configured: string)
    ensures SelectAuth(c, ToLower(configured)) == SelectAuth(c, configured)
  {
    ToLowerIdempotent(configured);
  }

  /** With the configured default "login" every connection kind logs in. */
  lemma DefaultMethodLogsIn(c: Protocol)
    ensures SelectAuth(c, DefaultAuthMethod) == Login
  {
    ToLowerOfNoUpper(DefaultAuthMethod);
    ContainsAt(DefaultAuthMethod, "login", 0);
    NotContainsByFirstChar(DefaultAuthMethod, "start_tls");
  }

  /** A plain SMTP connection configured for START_TLS does not authenticate
      at all: only the SMTPS branch looks for "start_tls". */
  lemma PlainSmtpIgnoresStartTls()
    ensures SelectAuth(Smtp, "start_tls") == NoAuth
    ensures SelectAuth(Smtps, "start_tls") == StartTls
  {
    StartTlsText();
  }

  /** "start_tls" is its own lower case, contains itself and not "login". */
  lemma StartTlsText()
    ensures ToLower("start_tls") == "start_tls"
    ensures Contains("start_tls", "start_tls") && !Contains("start_tls", "login")
  {
    StartTlsIsLower();
    StartTlsLacksLogin();
    ContainsSelf("start_tls");
  }

  lemma StartTlsIsLower()
    ensures ToLower("start_tls") == "start_tls"
  {
    var s := "start_tls";
    assert forall i :: 0 <= i < |s| ==> !('A' <= s[i] <= 'Z') by {
      assert s == ['s', 't', 'a', 'r', 't', '_', 't', 'l', 's'];
    }
    ToLowerOfNoUpper(s);
  }

  lemma StartTlsLacksLogin()
    ensures !Contains("start_tls", "login")
  {
    var s := "start_tls";
    assert forall j :: 0 <= j && j + 5 <= |s| ==> s[j] != 'l' by {
      assert s == ['s', 't', 'a', 'r', 't', '_', 't', 'l', 's'];
    }
    NotContainsByFirstChar(s, "login");
  }

  // ---------------------------------------------------------------------------
  // getByFilter

  /** The list of folders written out with a ',' after each name. */
  function CommaTerminated(folders: seq<string>): (r: string)
    ensures folders != [] ==> r != [] && r[|r| - 1] == ','
  {
    if folders == [] then [] else folders[0] + "," + CommaTerminated(folders[1..])
  }

  lemma {:induction false} CommaTerminatedJoin(folders: seq<string>)
    ensures folders != [] ==> CommaTerminated(folders) == Join(folders, ",") + ","
    decreases |folders|
  {
    if |folders| > 1 {
      CommaTerminatedJoin(folders[1..]);
      assert CommaTerminated(folders) == folders[0] + "," + (Join(folders[1..], ",") + ",");
    } else if |folders| == 1 {
      assert CommaTerminated(folders[1..]) == [];
    }
  }

  /** The folder label getByFilter logs: "(", each folder followed by ',',
      then the last character removed and ")" added. For an empty list the
      removed character is the "(" itself. */
  function FolderLabel(folders: seq<string>): (r: string)
    ensures folders != [] ==> r == "(" + Join(folders, ",") + ")"
    ensures folders == [] ==> r == ")"
  {
    var s := "(" + CommaTerminated(folders);
    CommaTerminatedJoin(folders);
    assert folders != [] ==> s[..|s| - 1] == "(" + Join(folders, ",");
    s[..|s| - 1] + ")"
  }

  /** What happened in one IMAP session, as far as the result is concerned:
      opening the connection threw; authenticate reported an error; select
      or search threw; or the search found these message ids, and fetching
      and writing them threw `failure` or did not. */
  datatype Session =
    | ConnectThrew(what: string)
    | AuthFailed(what: string)
    | SelectThrew(what: string)
    | Searched(uids: seq<nat>, failure: Option<string>)

  /** The session got as far as the mailbox with something to write. */
  predicate ReachedMailbox(s: Session) {
    s.SelectThrew? || (s.Searched? && s.uids != [])
  }

  const NoNewMailError: MailError := MailError(NoNewMail, "No new mail found")

  /** Mail::getByFilter: the result directory is work_dir/<time directory>
      once the mailbox was reached; it is empty when the connection or the
      authentication failed or nothing was found. Every exception text is
      classified by parseError. */
  function GetByFilter(workDir: string, timeDir: string, s: Session): (r: (string, Option<MailError>))
    ensures ReachedMailbox(s) ==> r.0 == PathJoin(workDir, timeDir)
    ensures !ReachedMailbox(s) ==> r.0 == ""
    ensures r.1.None? <==> s.Searched? && s.uids != [] && s.failure.None?
    ensures s.Searched? && s.uids == [] ==> r.1 == Some(NoNewMailError)
    ensures !s.Searched? ==> r.1 == Some(ParseError(s.what))
    ensures s.Searched? && s.uids != [] && s.failure.Some? ==> r.1 == Some(ParseError(s.failure.value))
  {
    match s
    case ConnectThrew(what) => ("", Some(ParseError(what)))
    case AuthFailed(what) => ("", Some(ParseError(what)))
    case SelectThrew(what) => (PathJoin(workDir, timeDir), Some(ParseError(what)))
    case Searched(uids, failure) =>
      if uids == [] then ("", Some(NoNewMailError))
      else match failure
        case None => (PathJoin(workDir, timeDir), None)
        case Some(what) => (PathJoin(workDir, timeDir), Some(ParseError(what)))
  }

  /** With a non-empty time directory, the result directory is non-empty
      exactly when the mailbox was reached, errors included. */
  lemma ResultDirNonEmpty(workDir: string, timeDir: string, s: Session)
    requires timeDir != []
    ensures GetByFilter(workDir, timeDir, s).0 != "" <==> ReachedMailbox(s)
  {
  }

  // ---------------------------------------------------------------------------
  // Temporary file names

  const HexDigits: string := "0123456789abcdef"

  /** The character at index v of "0123456789abcdef". */
  function HexDigit(v: int): (c: char)
    requires 0 <= v < 16
    ensures IsHexLower(c) && c == HexDigits[v]
  {
    if v < 10 then ('0' as int + v) as char else ('a' as int + v - 10) as char
  }

  /** The value of a lower-case hex digit: HexDigit's inverse. */
  function HexValue(c: char): (v: int)
    requires IsHexLower(c)
    ensures 0 <= v < 16 && HexDigit(v) == c
  {
    if IsDigit(c) then c as int - '0' as int else c as int - 'a' as int + 10
  }

  lemma HexValueOfDigit(v: int)
    requires 0 <= v < 16
    ensures HexValue(HexDigit(v)) == v
  {
  }

  /** The characters drawn by indices in 0..15. */
  function HexString(draws: seq<int>): (r: string)
    requires forall i :: 0 <= i < |draws| ==> 0 <= draws[i] < 16
    ensures |r| == |draws|
    ensures forall i :: 0 <= i < |r| ==> r[i] == HexDigit(draws[i])
  {
    if draws == [] then [] else [HexDigit(draws[0])] + HexString(draws[1..])
  }

  /** The file name part: "temp-", one hex digit per draw, ".tmp". */
  function TempName(draws: seq<int>): (name: string)
    requires |draws| == 16 && forall i :: 0 <= i < 16 ==> 0 <= draws[i] < 16
    ensures |name| == 25 && IsPrefix("temp-", name) && IsSuffix(".tmp", name)
    ensures forall i :: 5 <= i < 21 ==> name[i] == HexDigit(draws[i - 5])
    ensures forall j :: 0 <= j < |name| ==> name[j] != '/'
  {
    var hex := HexString(draws);
    TempFrame(hex);
    "temp-" + hex + ".tmp"
  }

  /** Where the parts of "temp-" + hex + ".tmp" sit. */
  lemma TempFrame(hex: string)
    requires |hex| == 16
    ensures var name := "temp-" + hex + ".tmp";
      && |name| == 25 && name[..5] == "temp-" && name[21..] == ".tmp"
      && (forall i :: 5 <= i < 21 ==> name[i] == hex[i - 5])
      && (forall i :: 0 <= i < 5 || 21 <= i < 25 ==> name[i] != '/')
  {
    var name := "temp-" + hex + ".tmp";
    assert name[..5] == "temp-" && name[21..] == ".tmp";
  }

  /** Mail::generateTempFilename, with the random draws (uniform in 0..15) and
      the temporary directory as inputs: "temp-", 16 lower-case hex digits,
      ".tmp", in that directory. */
  function TempFileName(tempDir: string, draws: seq<int>): (r: string)
    requires |draws| == 16 && forall i :: 0 <= i < 16 ==> 0 <= draws[i] < 16
    ensures var name := FileName(r);
      && name == TempName(draws)
      && |name| == 25
      && IsPrefix("temp-", name) && IsSuffix(".tmp", name)
      && (forall i :: 5 <= i < 21 ==> IsHexLower(name[i]))
  {
    FileNameOfJoin(tempDir, TempName(draws));
    PathJoin(tempDir, TempName(draws))
  }

  /** The draws can be read back from the name, so different draws give
      different file names. */
  lemma TempFileNameInjective(tempDir: string, d1: seq<int>, d2: seq<int>)
    requires |d1| == 16 && forall i :: 0 <= i < 16 ==> 0 <= d1[i] < 16
    requires |d2| == 16 && forall i :: 0 <= i < 16 ==> 0 <= d2[i] < 16
    requires TempFileName(tempDir, d1) == TempFileName(tempDir, d2)
    ensures d1 == d2
  {
    var n1, n2 := TempName(d1), TempName(d2);
    assert n1 == n2;
    forall i | 0 <= i < 16 ensures d1[i] == d2[i] {
      assert n1[5 + i] == HexDigit(d1[i]) && n2[5 + i] == HexDigit(d2[i]);
      HexValueOfDigit(d1[i]);
      HexValueOfDigit(d2[i]);
    }
  }
}
