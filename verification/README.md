# remote_agent core, modelled in Dafny

remote_agent is a Linux daemon. It polls IMAP accounts for new mail and
writes each fetched message into a time-stamped work directory. It announces
that directory to the rest of the process over a zmq publish/subscribe
channel, parses YAML task files, and drives a serial port. This project
models the parts of that daemon that make decisions, as pure Dafny functions
over immutable data, and proves what they promise.

Modules, one per source component:

- `Common`: `Option`/`Result`, the string helpers the source gets from the
  C++ library and boost, and decimal rendering (`std::to_string`).
- `Document`: the YAML tree and yaml-cpp's lookup and conversion semantics.
  A missing key gives a "zombie" handle. Subscripting a scalar throws. `as<T>()`
  throws on a mismatch, and `as<T>(fallback)` falls back instead. A null node
  (`key:` with no value) is defined, has no children and converts to the
  string "null". Integers are read as the C++ stream reads them with no base
  set: an optional sign, a "0x" or "0" prefix selecting the base, trailing
  whitespace only, and a value that must fit the target type (`int`, or a
  64-bit `unsigned long`).
- `TaskParsing`: `TaskParser::parseYaml` (src/task.cpp).
- `Ipc`: the process-wide `IPCContext` registry, `getPort`, and
  `IPC::connect` / `IPC::disconnect` (src/ipc.cpp, include/ipc.h).
  - Socket tables are keyed by endpoint, or by endpoint + topic for subscribers.
  - Reference counts are kept modulo 2^16.
  - Port locks are kept as a set of port strings.
- `Channel`: `Publisher<Msg>` and `Subscriber<Msg>` (include/publisher.h,
  include/subscriber.h). It covers the two-frame wire format, zmq's prefix
  filter, the exact-topic check before the callback, and the port lock held
  while sending or receiving.
- `Daemon`: the `Daemon` class (src/daemon.cpp, include/daemon.h).
  - Its lifecycle, and the endpoint rewrite for subscribers.
  - The publish worker, as a step machine over a FIFO queue and a condition
    variable.
  - The mail poll, which queues the directory of every account whose
    mailbox was reached.
  - The routing of received messages to their handlers.
- `Calendar`: `boost::gregorian::from_string`, which reads the date search
  conditions: tokens split at `,` `-` `.` space and `/`, a year, a month by
  number or by name and a day read as 16-bit unsigned numbers, and the
  date's range checks (years 1400 to 9999, and the Gregorian calendar).
- `Config`: `Config` (src/config.cpp, include/config.h). Covers YAML loading
  with defaults, the `.env` reader and `trim`, password placeholders, IMAP
  filters and search conditions, mailbox lists, and lookup of an account by
  name.
- `Mail`: the decisions inside `mail::Mail` (src/mail.cpp).
  - Error classification, MIME classification of attachments, and the
    choice of authentication method.
  - The outcome of `getByFilter`, and temporary file names.
- `Serial`: `SerialPort` (src/serial_port.cpp). Termios flag words are
  modelled as sets of flags. Covers the setters, both baud-rate tables and
  the descriptor guards.

Inputs the daemon gets from the environment are parameters here:

- the parsed YAML document, or the parser's failure;
- the process environment and the contents of `.env` files;
- which endpoints can be bound or dialled;
- what happened in an IMAP session;
- the current-time directory name;
- the random draws of `generateTempFilename`;
- the return values of `close`/`write` and their `strerror` texts;
- the speed a device reports.

## Model

| member | source | states |
|---|---|---|
| Document.AsString | src/task.cpp:19 | as<std::string>() succeeds exactly on a scalar, giving its text, or on a null, giving "null"; a zombie throws InvalidNode |
| Document.AsStringOr | src/config.cpp:44 | the fallback replaces exactly a failed string conversion, so a null still gives "null" |
| Document.Texts | src/task.cpp:37-39 | a sequence converts element-wise exactly when every element is a scalar or null |
| Document.AsStringList | src/config.cpp:170 | as<std::list<std::string>>() needs a sequence of scalars or nulls and keeps their order |
| Document.DropTrailingSpace | src/config.cpp:59 | removes exactly the trailing run of whitespace, which the stream allows after a number |
| Document.Magnitude | src/config.cpp:59 | with no base set, a leading "0x" selects hexadecimal, a leading "0" octal, otherwise decimal |
| Document.ParseInt | src/config.cpp:59 | as<int>() accepts only values that fit an int, and never text with leading whitespace |
| Document.ParseNat | src/config.cpp:236 | as<unsigned long>() refuses a leading '-' and values above 2^64-1 |
| Document.AsInt | src/config.cpp:59 | as<int>() succeeds exactly on a scalar whose text reads as an int |
| Document.AsNat | src/config.cpp:236 | as<unsigned long>() succeeds exactly on a scalar whose text reads as one |
| Document.ParseIntDecimal | src/config.cpp:70 | every int written in decimal reads back; a number outside int's range is refused, not wrapped |
| Document.ParseNatDecimal | src/config.cpp:236 | every unsigned long written in decimal reads back; a larger number is refused |
| Document.MagnitudeOfDecimal | src/config.cpp:59 | decimal text without superfluous zeros reads back as the number written |
| Document.HexPrefix | src/config.cpp:59 | "0x10" reads as 16, "0X1f" as 31, "-0x10" as -16 |
| Document.OctalPrefix | src/config.cpp:59 | "010" reads as 8 and "08" is refused |
| Document.SignAndSpace | src/config.cpp:59 | "+5" and "5 " read as 5; " 5" is refused |
| Document.UnsignedSign | src/config.cpp:236 | the unsigned conversion refuses "-1" and reads "+7" as 7 |
| Calendar.DaysInMonth | src/config.cpp:254 | months have 28 to 31 days, and February has 29 exactly in leap years |
| Calendar.Tokens | src/config.cpp:254 | the date text splits into non-empty tokens that hold no separator |
| Calendar.TokensLead | src/config.cpp:254 | a token followed by a separator or by the end of the text is split off whole |
| Calendar.TokensSkip | src/config.cpp:254 | a separator in front adds no token |
| Calendar.ThreeTokens | src/config.cpp:254 | three tokens joined by '-' split back into the same three |
| Calendar.CastUShort | src/config.cpp:254 | a field reads as a 16-bit unsigned number, or not at all |
| Calendar.CastNatToString | src/config.cpp:254 | a number written in decimal reads back as itself when it fits 16 bits and is refused otherwise |
| Calendar.CastPad2 | src/config.cpp:254 | a two-digit field with a leading zero reads as its number |
| Calendar.LeadingZero | src/config.cpp:254 | a leading zero does not change a decimal field's value |
| Calendar.MonthNumber | src/config.cpp:254 | a month starting with a digit is read as a number, any other as a month name in any case |
| Calendar.FromString | src/config.cpp:254 | every date read is valid: year 1400 to 9999, month 1 to 12, a day that exists in that month; it needs three tokens |
| Calendar.FromStringIso | src/config.cpp:254 | every valid date written as YYYY-MM-DD reads back as itself |
| Calendar.LeapDay | src/config.cpp:254 | YYYY-02-29 is a date exactly when YYYY is a leap year |
| Calendar.MonthByName | src/config.cpp:254 | a month written as a word reads as the month that word names, whatever its case, and the date is refused when it names none |
| Calendar.WordIsNoDate | src/config.cpp:254 | a text with no separator, such as "yesterday", is no date |
| TaskParsing.ParseYaml | src/task.cpp:11-58 | the result flag is true exactly when no error is recorded; every error starts with "Error parsing YAML file: "; steps already parsed are never lost |
| TaskParsing.ParseCommands | src/task.cpp:37-39 | commands are the step's items in order, a null item giving "null"; it fails exactly when some item is neither a scalar nor null |
| TaskParsing.ParseStep | src/task.cpp:26-51 | a step is only produced from an item that has both a name and a commands key |
| TaskParsing.StepResults | src/task.cpp:25-52 | one parse outcome per item of the steps sequence, item by item |
| TaskParsing.PushStepsExtends | src/task.cpp:51 | pushing step results only appends and keeps the task name |
| TaskParsing.StepsOnlyGrow | src/task.cpp:25-52 | a parse, successful or not, keeps every step recorded before it |
| TaskParsing.MissingNameFails | src/task.cpp:15-18 | a document without "name" fails with the exact message and renames the task "Unnamed_task" |
| TaskParsing.MissingStepsFails | src/task.cpp:19-24 | a missing or non-sequence "steps" fails with the exact message after the name was stored |
| TaskParsing.Values | src/task.cpp:51 | the steps of an all-successful list of results, in order |
| TaskParsing.FailingStepKeepsEarlierSteps | src/task.cpp:25-52 | when step k is the first to fail, steps 0..k-1 stay pushed and step k's failure is reported |
| TaskParsing.AllStepsPushed | src/task.cpp:25-52 | when every step parses, all of them are appended in order and no error is reported |
| TaskParsing.MergePairsLastWins | src/task.cpp:41-50 | with scalar or null values, a key ends up bound to the string its last binding converts to, and untouched keys keep their values |
| TaskParsing.MergePairsSnoc | src/task.cpp:44-47 | one more pair overwrites that key only |
| TaskParsing.MergePairsOkIff | src/task.cpp:45-46 | merging fails exactly when some value is neither a scalar nor null (the as<string> throw) |
| TaskParsing.MergeEnvironmentsIsFold | src/task.cpp:42-49 | merging the environments list equals merging the concatenated pairs of its map elements; non-map elements are skipped |
| TaskParsing.MergePairsAppend | src/task.cpp:42-49 | merging a+b is merging a, then b into the result, and an error in a stops it |
| TaskParsing.EnvironmentsLastWriteWins | src/task.cpp:41-50 | a step's environment is defined exactly on the keys bound somewhere, each with its last value |
| TaskParsing.NoEnvironmentsGivesEmptyMap | src/task.cpp:41 | a missing or non-sequence "environments" leaves the step's environment empty |
| TaskParsing.AcceptedParses | src/task.cpp:11-58 | a well-formed document yields its name, appends all its steps in order and reports success |
| TaskParsing.SecondParseAppends | src/task.cpp:19-51 | the same parser on two good files keeps the steps of both, in order |
| Ipc.DigitRun | src/ipc.cpp:107 | the maximal run of digits starting at a position |
| Ipc.LastPortColon | src/ipc.cpp:107 | the greedy `.*` of the port pattern: the last colon followed by a digit before the first line terminator |
| Ipc.FindMatch | src/ipc.cpp:109 | the leftmost "tcp://" with a port colon after it, and its greediest colon |
| Ipc.GetPort | src/ipc.cpp:106-113 | "" exactly when the pattern does not occur; otherwise the digit run after the leftmost, greediest match; always digits only |
| Ipc.MatchUnique | src/ipc.cpp:106-113 | the leftmost, greediest match is unique, so the port is well defined |
| Ipc.Install | src/ipc.cpp:29-35 | the key maps to the new socket with count 1; every other key is unchanged |
| Ipc.Retain | src/ipc.cpp:67-77 | a present key's uint16 count goes up by one, wrapping to 0 at 65535; an absent key changes nothing |
| Ipc.Release | src/ipc.cpp:37-47 | count 1 erases the socket and the count; a count above 1 decrements; an absent key or a count of 0 changes nothing |
| Ipc.Lookup | src/ipc.cpp:23-27 | operator[] returns the stored socket, or inserts and returns a null one |
| Ipc.AddPublisherSocket | src/ipc.cpp:29-35 | the first publisher installs its socket and creates the port's lock |
| Ipc.AddSubscriberSocket | src/ipc.cpp:60-65 | the first subscriber installs its socket; locks and publishers are untouched |
| Ipc.GetMutex | src/ipc.cpp:91-94 | getMutex creates the port's lock if needed, and afterwards hasMutex holds |
| Ipc.Connect | src/ipc.cpp:118-140 | a new publisher succeeds iff its endpoint binds and a new subscriber iff its endpoint dials, and its key then has count 1; a key already registered always succeeds, hands back the stored socket, retains the count once and changes nothing else; afterwards a publisher's port lock exists; subscribers never touch locks |
| Ipc.Disconnect | src/ipc.cpp:142-148 | a publisher releases its endpoint in the publisher table; a subscriber releases its bare endpoint, so with a non-empty topic the endpoint+topic key it registered under keeps its socket and count; the other table, the locks and the socket counter never change |
| Ipc.CountsStayPositive | src/ipc.cpp:29-89 | install and release keep every stored count positive; retain does too below the 16-bit limit |
| Ipc.RetainWrapsAtLimit | src/ipc.cpp:67-71 | at 65535 one more retain wraps the count to 0, after which release no longer removes the socket |
| Ipc.RetainTimesCount | src/ipc.cpp:67-71 | n retains add n to the count and touch nothing else |
| Ipc.ReleaseTimesCount | src/ipc.cpp:37-47 | releasing as many times as the count removes the socket and leaves other keys alone |
| Ipc.AcquireReleaseBalanced | src/ipc.cpp:29-47 | one install, k-1 retains and k releases leave the table as it was for every other key, with the key gone |
| Ipc.ReleaseAbsentIsNoOp | src/ipc.cpp:37-47 | releasing an unknown key any number of times changes nothing |
| Ipc.GetMutexThenHasMutex | src/ipc.cpp:91-99 | locks are shared per port: getMutex on one endpoint makes hasMutex true for any endpoint with the same port |
| Ipc.ConnectKeepsLocksCover | src/ipc.cpp:29-148 | every registered publisher's port has a lock, and connect and disconnect preserve that |
| Ipc.PublisherConnectDisconnect | src/ipc.cpp:118-148 | connect then disconnect of a fresh publisher removes its socket but keeps the port lock |
| Ipc.SubscriberDisconnectMissesOwnKey | src/ipc.cpp:130-146 | a subscriber with a non-empty topic stays registered after disconnect, with count 1 |
| Ipc.SecondPublisherReusesSocket | src/ipc.cpp:119-128 | a second publisher on the same endpoint shares the first one's socket, and the count becomes 2 |
| Channel.Publish | include/publisher.h:16-27 | the frames are topic then payload on the publisher's socket, under the port's exclusive lock exactly when the port has one |
| Channel.PublishAll | include/publisher.h:16-27 | publishing a list puts one frame pair per payload on the wire, in order, all on the publisher's topic |
| Channel.NewSubscriber | include/subscriber.h:19 | a new subscriber is not running, has no callback or thread, and is subscribed to nothing |
| Channel.Subscribe | include/subscriber.h:25-60 | subscribe adds the topic filter and starts running with a callback and a thread |
| Channel.Stop | include/subscriber.h:62-67 | stop clears running and joins the thread; nothing else changes |
| Channel.Receive | include/subscriber.h:33-56 | the callback gets the payload exactly when the topic frame equals the own topic, read under a shared lock exactly when the port has one |
| Channel.Deliveries | include/subscriber.h:30-58 | the callback is called at most once per message on the wire |
| Channel.DeliveriesAreOwnTopic | include/subscriber.h:26-53 | a running subscriber with a callback delivers exactly the payloads on its own topic, in order |
| Channel.NoCallbackNoDeliveries | include/subscriber.h:44-52 | without a callback nothing is delivered |
| Channel.PublishSubscribeRoundTrip | include/publisher.h:16-27 | what a publisher sends on T is received in full and in order by a subscriber to T; a subscriber to another topic gets none of it |
| Channel.LongerTopicAdmittedButDropped | include/subscriber.h:26-44 | a message on T+suffix passes zmq's prefix filter for T but is not handed to T's callback |
| Channel.StopIdempotent | include/subscriber.h:21-67 | the destructor's stop after an explicit stop changes nothing |
| Daemon.TypeCode | include/daemon.h:25-29 | the service type codes are 0, 1, 2 |
| Daemon.TopicsAndCodesDistinct | include/daemon.h:25-50 | the three topics differ and the type codes are injective |
| Daemon.SubscriberEndpoint | src/daemon.cpp:72-77 | "tcp://*:p" and "tcp://0.0.0.0:p" become "tcp://localhost:p"; any other endpoint is returned as it is |
| Daemon.LoopbackNotWildcard | src/daemon.cpp:73 | a rewritten endpoint no longer matches the wildcard pattern |
| Daemon.SubscriberEndpointIdempotent | src/daemon.cpp:72-77 | rewriting twice is rewriting once |
| Daemon.Enqueue | src/daemon.cpp:92-98 | the message goes to the back of the queue; a worker blocked on the condition variable is woken |
| Daemon.WorkerStep | include/daemon.h:92-107 | one step of the worker: with a message it pops the front and publishes it; with an empty queue it blocks while running; at the loop head it exits once stopped |
| Daemon.Play | include/daemon.h:92-107 | published messages are never taken back |
| Daemon.PlayIsFifo | include/daemon.h:92-162 | published followed by still-queued always equals the initial messages followed by everything pushed: nothing lost, duplicated or reordered |
| Daemon.PublishedIsPrefixOfPushed | include/daemon.h:92-107 | from an empty service, what is published is a prefix of what was pushed |
| Daemon.AfterHaltAtMostOne | include/daemon.h:93-103 | once the daemon stops, the worker publishes at most one more message |
| Daemon.Steps | include/daemon.h:93 | a run of n scheduler steps |
| Daemon.HaltDoesNotWakeWorker | include/daemon.h:95-97 | a blocked worker stays blocked until a push notifies it; stop does not notify the condition variable |
| Daemon.RunningWorkerDrains | include/daemon.h:93-107 | a running worker at the loop head publishes its whole queue, in order, in two steps per message |
| Daemon.NewDaemon | src/daemon.cpp:16-22 | mail polling is enabled iff the interval is positive; one mail_recv service and one mail_recv subscriber on the rewritten endpoint |
| Daemon.StartPublishers | include/daemon.h:84-110 | every string service is connected and gets a running worker; others are untouched |
| Daemon.StartSubscriber | include/daemon.h:112-152 | operator[] creates the subscriber slot; an existing subscriber is connected and running; nothing else changes |
| Daemon.Start | src/daemon.cpp:26-54 | start on a running daemon does nothing; otherwise it runs, all three subscriber slots exist, every worker runs and the timer is armed iff mail is enabled |
| Daemon.SubscriberChain | include/daemon.h:112-152 | the three subscriber lookups leave a slot for each of the three keys and do not touch the services, the running flag, the mail flag or the timer |
| Daemon.SubscriberStages | include/daemon.h:112-152 | after the three subscriber stages the mail_recv subscriber runs and the task_recv and mail_send slots are empty |
| Daemon.PublisherStage | include/daemon.h:84-110 | after the publisher stage the mail_recv worker runs and subscribers are untouched |
| Daemon.FreshStart | src/daemon.cpp:16-54 | a fresh daemon that starts has its mail_recv subscriber and worker running, empty task_recv and mail_send slots, and the timer armed iff the interval is positive |
| Daemon.StartWithOneService | src/daemon.cpp:26-53 | a stopped daemon whose only service and only subscriber are the mail_recv ones starts with that subscriber and its worker running, empty task_recv and mail_send slots, and the timer armed iff mail is enabled |
| Daemon.Stop | src/daemon.cpp:36-42 | stop clears running and changes nothing else |
| Daemon.Publish | include/daemon.h:154-162 | on a topic whose service exists and holds strings (otherwise the source dereferences a null pointer), the message is appended to that queue; every other service is unchanged |
| Daemon.PublishMail | src/daemon.cpp:92-98 | the directory is appended to the mail_recv queue; every other service is unchanged |
| Daemon.Poll | src/daemon.cpp:55-69 | a poll only touches the mail_recv service |
| Daemon.PollQueuesNonEmptyDirs | src/daemon.cpp:58-68 | a poll queues exactly the non-empty result directories, in account order, errors or not |
| Daemon.FetchedOf | src/daemon.cpp:60-62 | the directory is kept, and an error is reported exactly when getByFilter returned one, with its text |
| Daemon.FetchAll | src/daemon.cpp:58-60 | one getByFilter result per account, in order |
| Daemon.NonEmptyDirsAreReached | src/daemon.cpp:64-67 | the queued directories are those of the accounts whose mailbox was reached |
| Daemon.PollQueuesReachedMailboxes | src/daemon.cpp:55-69 | a poll appends work_dir/time_dir for each account that reached its mailbox, including those whose fetch then failed, and nothing for the others |
| Daemon.Route | include/daemon.h:117-150 | mail_recv goes to processMail and task_recv to processTask; mail_send goes to sendMail exactly when the MailTo payload decodes |
| Daemon.MailRecvEndToEnd | src/daemon.cpp:92-98 | every directory queued by publishMail reaches processMail through the publisher and the subscriber, in order |
| Config.LeadingSpaces | src/config.cpp:150 | find_first_not_of over " \t\r\n" |
| Config.TrailingSpaces | src/config.cpp:151 | find_last_not_of over " \t\r\n": the trailing run of blanks, preceded by a non-blank unless it is the whole text |
| Config.Trim | src/config.cpp:149-155 | empty exactly for all-blank input; otherwise begins and ends with non-blanks and is the middle of the input between blanks |
| Config.SplitUnique | src/config.cpp:149-155 | the middle of a blank/middle/blank split is unique |
| Config.TrimUnique | src/config.cpp:149-155 | the middle of any blank/middle/blank split is what trim returns |
| Config.TrimIdempotent | src/config.cpp:149-155 | trimming twice is trimming once |
| Config.ParseEnvLine | src/config.cpp:130-141 | blank and '#' lines are skipped; a line without '=' is malformed; an assignment has an '=' |
| Config.ParseTrimmedLine | src/config.cpp:132-139 | on an already trimmed line: an empty or '#' line is skipped; a line without '=' is malformed and keeps its text; an assignment line holds an '=' |
| Config.SplitAtFirstEquals | src/config.cpp:135-141 | the key is the trimmed text before the first '=' and the value the trimmed text after it |
| Config.EnvLineRoundTrip | src/config.cpp:130-141 | writing key=value for a trimmed key without '=' and a trimmed value reads back as that assignment |
| Config.SetEnv | src/config.cpp:142 | setenv overwrites one key; an empty name is refused and changes nothing |
| Config.EnvLastAssignmentWins | src/config.cpp:129-145 | after reading a .env file each variable holds its last assignment, and unassigned ones keep their value |
| Config.WorkDirEnvFile | src/config.cpp:116-118 | the file path(work_dir)/".env" names: the current directory's for an empty work_dir, else that directory's, if it has one |
| Config.LoadDotEnv | src/config.cpp:114-128 | work_dir/.env is read first, the current directory's .env otherwise, and nothing when neither exists; an empty work_dir reads the current directory's |
| Config.PlaceholderName | src/config.cpp:86-89 | the variable name inside "${...}" |
| Config.GetEnv | src/config.cpp:90 | getenv finds exactly the set, non-empty names |
| Config.SubstitutePassword | src/config.cpp:86-99 | a "${NAME}" password with NAME set becomes its value; anything else is kept verbatim |
| Config.PlaceholderRoundTrip | src/config.cpp:86-99 | "${name}" resolves to the variable's value when it is set, and stays literal otherwise |
| Config.KeyOf | src/config.cpp:188-220 | an unknown type name is kept as the undefined key |
| Config.KeyOfTypeNameRoundTrip | src/config.cpp:191-218 | the type-name table is a bijection between the 14 names and the 14 search keys |
| Config.RangeOf | src/config.cpp:237-244 | one id gives a single, two ids give a range, any other count gives nothing |
| Config.ParseRanges | src/config.cpp:233-246 | entries without a usable range are skipped, so at most one range per entry |
| Config.ParseCondition | src/config.cpp:186-267 | ALL carries no value, only SID_LIST/UID_LIST carry ranges, and only the date keys carry dates |
| Config.ConditionValue | src/config.cpp:222-264 | the condition keeps its key; ALL has no value; only SID_LIST/UID_LIST carry ranges and only the date keys carry dates, always valid ones; an id-list key without a value gets none; a date key succeeds exactly when its value is a string that from_string reads as a date, and fails with BadDate when the string is no date |
| Config.ConditionFitsRfc | src/config.cpp:186-267 | a condition written with the argument its key takes reads back as that key with a value of the right kind; a valid date written as YYYY-MM-DD reads back as that date |
| Config.RfcValueFits | src/config.cpp:222-264 | for every known key, the value node its argument calls for is read as a value of the right kind, a date as itself |
| Config.RejectedDateEscapes | src/config.cpp:249-255 | a date condition whose text is no date fails the parse with BadDate, which is not a YAML::Exception, so loadConfig's handler at src/config.cpp:109 does not catch it |
| Config.KnownConditionReadsValue | src/config.cpp:186-221 | a node whose type names a known key reads that key and then the value of its `value` child |
| Config.FlagWithValueGetsText | src/config.cpp:255-257 | a flag key such as SEEN given a value takes it as a string argument, because the string branch is checked first |
| Config.ParseConditions | src/config.cpp:177-181 | one condition per node, in order |
| Config.ParseImapFilter | src/config.cpp:157-161 | no filter is produced exactly when the "filter" key is missing, and a lookup of "filter" that throws fails the parse |
| Config.FilterFolders | src/config.cpp:166-174 | missing or non-sequence folders default to ["inbox"]; a sequence of strings is taken as it is |
| Config.ParseAddress | src/config.cpp:299-305 | an address is read only from a map |
| Config.ParseMembers | src/config.cpp:310-317 | one member per list item |
| Config.AddMailboxItem | src/config.cpp:296-321 | an item adds at most one address or group, never removes any, and never adds an empty group |
| Config.AddMailboxItems | src/config.cpp:296-322 | no empty group is ever added |
| Config.ParseMailboxes | src/config.cpp:292-324 | a non-sequence gives empty mailboxes; no group in the result is empty |
| Config.AddressNodes | src/config.cpp:299-305 | one YAML node per address |
| Config.AddressItem | src/config.cpp:299-305 | an address item appends exactly that address |
| Config.AddressItemsRoundTrip | src/config.cpp:296-322 | a list of address items appends exactly those addresses, in order |
| Config.MailboxesRoundTrip | src/config.cpp:292-324 | writing addresses as YAML items and parsing them gives the same addresses and no groups |
| Config.EmptyGroupDropped | src/config.cpp:306-320 | a group whose list is empty or not a sequence is dropped |
| Config.ParseSmtpDetails | src/config.cpp:269-290 | the from address is set exactly when "from" is present |
| Config.SmtpDetailsFilled | src/config.cpp:271-289 | details exist when "from" or "to" is present; otherwise the result depends on the uninitialised flag |
| Config.ParseGlobal | src/config.cpp:41-46 | the endpoint and the interval are never read; without "global" nothing changes |
| Config.GlobalDefaults | src/config.cpp:43-45 | an empty "global" gives timeout 30, log level "info" and work_dir "/tmp" |
| Config.GlobalNullDefaults | src/config.cpp:41-45 | a null "global" is defined, so it is read, and gives the same three defaults |
| Config.TimeoutRange | src/config.cpp:43 | a decimal default_timeout is taken when it fits an int and falls back to 30 when it does not |
| Config.ParseProtocol | src/config.cpp:56-77 | a protocol block must be a map; security defaults to "plain" and auth_method to "login" |
| Config.HostPortBlock | src/config.cpp:57-62 | a block of host and port loads with the default security and auth_method exactly when the port converts to an int, and fails with a bad conversion otherwise |
| Config.PortRange | src/config.cpp:57-62 | a decimal port loads exactly when it fits an int; otherwise the block fails with a bad conversion |
| Config.ParseCredentials | src/config.cpp:80-84 | username and password are the scalar texts of their keys |
| Config.ParseAccount | src/config.cpp:51-105 | an account needs a map with name and protocol; default_folder defaults to "inbox" |
| Config.NullProtocolAccount | src/config.cpp:51-105 | an account whose protocol is null loads with no servers, no filter, no SMTP details, empty credentials and folder "inbox" |
| Config.AccountResults | src/config.cpp:51-106 | one parse outcome per account node, in order |
| Config.PushAccounts | src/config.cpp:105 | accounts loaded earlier are never dropped |
| Config.FailingAccountKeepsEarlier | src/config.cpp:51-111 | when account k is the first to throw, accounts 0..k-1 stay loaded and the rest are not |
| Config.AllAccountsPushed | src/config.cpp:51-106 | when every account parses, all are appended in order |
| Config.LoadConfig | src/config.cpp:36-112 | loading never drops accounts, never sets the endpoint or interval, and a file that fails to load changes nothing |
| Config.PushAccountsNoFault | src/config.cpp:51-106 | pushing reports no failure exactly when every account parsed |
| Config.LoadAppends | src/config.cpp:36-112 | a load that ends without an exception leaves the old accounts followed by one account per element of "accounts", in order |
| Config.SecondLoadAppends | src/config.cpp:36-112 | a second load keeps the accounts of the first, and when it completes they are followed by its own accounts in order |
| Config.MissingGlobalKeepsZeroes | src/config.cpp:41-46 | without "global" the global settings stay zero-initialised |
| Config.GetAccountByName | src/config.cpp:26-34 | nothing exactly when no account has the name; otherwise the first account with it |
| Config.FirstNamed | src/config.cpp:28-32 | the linear search returns the first match |
| Config.FirstNamedShift | src/config.cpp:28-32 | a first match in the tail is the first match of the list when the head does not match |
| Mail.ParseError | src/mail.cpp:345-355 | the text is kept verbatim; the code is NETWORK iff it mentions "network" in any case, else REJECTION iff "rejection", else UNKNOWN |
| Mail.ParseErrorIgnoresCase | src/mail.cpp:346 | classification does not depend on letter case |
| Mail.ShoutedNetworkIsNetwork | src/mail.cpp:346-349 | any text containing "NETWORK" is a network error |
| Mail.MajorType | src/mail.cpp:316-329 | the table of the seven media type names is read in both directions |
| Mail.Classify | src/mail.cpp:309-334 | the result is text/plain or the lower-cased type split at its first '/'; the subtype is lower case; no '/' gives text/plain |
| Mail.MajorTypeOfName | src/mail.cpp:316-329 | each media type is recognised by its own name |
| Mail.ClassifyRoundTrip | src/mail.cpp:309-329 | "major/subtype" for a known major type classifies as that type with the lower-cased subtype |
| Mail.UnknownMajorIsPlain | src/mail.cpp:330-331 | an unknown major type falls back to text/plain |
| Mail.ClassifyIgnoresCase | src/mail.cpp:310 | classification does not depend on letter case |
| Mail.FileName | src/mail.cpp:338 | path::filename: the part after the last '/' |
| Mail.PathJoin | src/mail.cpp:124 | std::filesystem operator/ ends with the joined name |
| Mail.JoinEndsWithName | src/mail.cpp:124 | a joined plain name ends the path, right after a '/' unless it is the whole path |
| Mail.SlashFreeSuffixUnique | src/mail.cpp:338 | the slash-free suffix that starts the path or follows a '/' is unique, so the file name is well defined |
| Mail.FileNameOfJoin | src/mail.cpp:338 | the file name of dir/name is name |
| Mail.PrepareAttachments | src/mail.cpp:306-343 | one attachment per file, in order, named by the file name and typed by the classification |
| Mail.AttachmentRoundTrip | src/mail.cpp:306-343 | a file dir/name of type major/subtype becomes an attachment called name of that type |
| Mail.SmtpConnection | src/mail.cpp:197-198 | SMTPS exactly when security is "ssl" |
| Mail.ImapConnection | src/mail.cpp:96-103 | IMAPS exactly when security is "ssl" |
| Mail.SelectAuth | src/mail.cpp:357-392 | SMTP logs in iff "login" occurs and never uses STARTTLS; SMTPS prefers "start_tls" over "login"; IMAPS defaults to login; IMAP always logs in |
| Mail.AuthFor | src/mail.cpp:364-382 | SMTP uses the smtp block's auth_method and IMAP the imap block's |
| Mail.Settings | include/config.h:44-48 | a protocol block that was never loaded has empty strings |
| Mail.SelectAuthIgnoresCase | src/mail.cpp:364-382 | the method name is compared case-insensitively |
| Mail.DefaultMethodLogsIn | src/config.cpp:61-62 | the default auth_method "login" logs in on every protocol |
| Mail.PlainSmtpIgnoresStartTls | src/mail.cpp:364-377 | "start_tls" means no authentication on plain SMTP but STARTTLS on SMTPS |
| Mail.CommaTerminated | src/mail.cpp:128-130 | each folder is followed by a comma |
| Mail.CommaTerminatedJoin | src/mail.cpp:128-130 | the comma-terminated list is the comma-joined list plus a final comma |
| Mail.FolderLabel | src/mail.cpp:127-132 | the log label is "(" + folders joined by "," + ")"; with no folders pop_back removes the "(" and the label is ")" |
| Mail.GetByFilter | src/mail.cpp:93-191 | the directory is work_dir/time_dir once the mailbox was reached, else empty; no error exactly when messages were found and written; an empty search gives NO_NEW_MAIL |
| Mail.ResultDirNonEmpty | src/mail.cpp:99-190 | a non-empty directory comes back exactly when the mailbox was reached |
| Mail.HexDigit | src/mail.cpp:417 | the digit at index v of "0123456789abcdef" |
| Mail.HexValue | src/mail.cpp:417 | the inverse of HexDigit |
| Mail.HexValueOfDigit | src/mail.cpp:417 | HexValue undoes HexDigit |
| Mail.HexString | src/mail.cpp:419-422 | one hex digit per draw, in order |
| Mail.TempName | src/mail.cpp:413-425 | 25 characters: "temp-", 16 lower-case hex digits of the draws, ".tmp" |
| Mail.TempFileName | src/mail.cpp:413-425 | the file name of the result is the temp name |
| Mail.TempFileNameInjective | src/mail.cpp:413-425 | different draws give different file names |
| Serial.SizeBits | src/serial_port.cpp:250-259 | CSIZE is two bits |
| Serial.SetDefaults | src/serial_port.cpp:29-39 | raw mode: the listed input, output and local flags are cleared, ISIG is set, 8 data bits with no parity, VTIME 0, VMIN 1; all other flags and the speed are kept |
| Serial.SetDefaultsIdempotent | src/serial_port.cpp:29-39 | applying the defaults twice is applying them once |
| Serial.SetParity | src/serial_port.cpp:227-240 | PARENB iff parity is on and PARODD iff odd; nothing else changes |
| Serial.SetDatabits | src/serial_port.cpp:247-264 | CLOCAL and CREAD are set and only CSIZE changes besides them |
| Serial.SetStopbits | src/serial_port.cpp:266-279 | CSTOPB clear for one, set for two; 1.5 changes nothing |
| Serial.SetEcho | src/serial_port.cpp:281-287 | ECHO iff on; nothing else changes |
| Serial.SetEchoLastWins | src/serial_port.cpp:281-287 | the last echo setting wins |
| Serial.SetHandshake | src/serial_port.cpp:289-299 | software flow sets IXON and IXOFF, otherwise IXON, IXOFF and IXANY are cleared; CRTSCTS iff hardware flow |
| Serial.SettersReadBack | src/serial_port.cpp:227-299 | the parity, data bits and handshake just set read back from the flags |
| Serial.ParityAndDatabitsCommute | src/serial_port.cpp:227-264 | parity and data bits touch disjoint flags, so their order does not matter |
| Serial.EncodeDecode | src/serial_port.cpp:129-217 | a rate is accepted iff its speed code is not B0, and an accepted rate reads back unchanged |
| Serial.DecodeEncode | src/serial_port.cpp:308-399 | every speed code except B0 and B1500000 comes from exactly its own rate |
| Serial.OnePointFiveMegabaudOneWay | src/serial_port.cpp:129-399 | 1500000 is decoded but not encoded: GetBaudrate knows B1500000 while SetBaudrate refuses 1500000 |
| Serial.SetBaudrate | src/serial_port.cpp:126-225 | an accepted rate sets only the speed; any other rate is refused with "Bad baudrate: " + the decimal rate and changes nothing |
| Serial.GetBaudrate | src/serial_port.cpp:301-402 | a descriptor that is not positive is refused; otherwise the device's speed is decoded, and unknown codes give 0 |
| Serial.BaudrateRoundTrip | src/serial_port.cpp:126-402 | for a device carrying the settings an accepted rate produces, the rate reads back as that rate |
| Serial.RefusedRateKeepsSpeed | src/serial_port.cpp:215-220 | a refused rate leaves the speed as it was, and the message carries the rate in decimal |
| Serial.Close | src/serial_port.cpp:75-86 | close fails with the bad-descriptor error unless the descriptor is positive, then exactly when close(2) fails |
| Serial.Write | src/serial_port.cpp:88-103 | a descriptor that is not positive gives (0, bad descriptor); otherwise the byte count is returned, never more than the data's length, and an error exactly when it is negative |
| Serial.UnopenedPortRefuses | src/serial_port.cpp:18-305 | a port that was constructed but never opened refuses close, write and reading the baud rate |

## Left out

- YAML text parsing: documents are given as trees. The "yaml-cpp: error at
  line L, column C: " prefix of yaml-cpp messages is not modelled. A file that
  fails to load is an input.
- Threads are modelled as interleaved steps of one state machine. The
  daemon's one-second sleep loop and the `Timer` (src/timer.cpp) are not
  modelled beyond "the timer is armed".
- Daemon.HaltDoesNotWakeWorker: spurious wakeups are not modelled. The wait
  predicate is `!queue.empty() || !_running` (include/daemon.h:95-97), so a
  spurious wakeup after `stop` lets a blocked worker out of its loop; the
  lemma states only that `stop` itself does not notify.
- `runner`, `runner_log`, `file_utils` and `main` are not part of this model.
- `Mail::send` (all overloads), `count` and `prepareMessage` are not modelled.
  Neither are fetching a message and writing mail.txt and the attachments to
  disk. All are mailio or filesystem I/O. `getByFilter`'s session outcome is
  an input.
- `getCurrentTimeDirectoryName` reads the clock, so its result is an input.
  `generateTempFilename` reads a random device, so its draws are an input, as
  is `temp_directory_path`.
- `processMail`, `processTask` and `sendMail` are declared but never defined,
  so routing stops at which handler is called. `MailTo` is an opaque record,
  and protobuf decoding is a function parameter.
- `publishMail` is used in src/daemon.cpp but not declared in
  include/daemon.h. It is modelled as written.
- `Config::getInstance` returns by value in src/config.cpp and by reference in
  include/config.h. The model has no singleton: the configuration is a value.
- `check_mail_interval_ms` and `zeromq_endpoint` are never read by
  `loadConfig`, so the daemon is built from explicit parameters.
- `parseSmtpConfig` reads an uninitialised `filled` flag. It is a parameter
  (`unsetFlag`).
- `parseCondition` keeps an uninitialised key for unknown type names. It is
  the distinguished `Undefined(typeName)` key.
- Dates follow Boost.Date_Time's `parse_date` in year-month-day order. A
  refused date is the BadDate fault. It is not a YAML::Exception, so it
  leaves `loadConfig` (src/config.cpp:109) and `Config::getInstance`
  unlogged, with the accounts read so far kept. The model's LoadConfig
  returns it like any other fault; IsYamlException tells them apart.
- Document.Describe: the message Boost gives for a refused date (which
  depends on which check fails first) is not modelled; BadDate's text is a
  stand-in, and nothing in the model reports it.
- The order in which `mail_address` constructor arguments are evaluated is
  not modelled: both lookups must succeed.
- `ErrorCode` is defined twice (include/config.h and include/agent_error.h).
  Each module uses the definition its source file includes.
- `SerialPort::Open`, `Read` and `SetAccessMode` are not modelled, nor
  `tcsetattr` in the destructor. They are device I/O. Settings live in a
  `Termios` value, and `GetBaudrate` decodes the speed the device reports.
- `cfsetspeed` in `SetBaudrate` is assumed to succeed.
- `GetParity` has no body (undefined behaviour). `ParityOf` reads the parity
  from the flags instead.
- Flag words are sets of named flags. CSIZE is two abstract bits, and the
  numeric values of the termios constants are not modelled. CRTSCTS is the
  Linux flag.
- TaskParsing.ParseStep: states only that a parsed step had both keys. Its
  exact contents are stated by ParseCommands, EnvironmentsLastWriteWins and
  AcceptedParses.
- Ipc.Connect: the socket identifiers handed out are not specified beyond
  being stored in the registry. When bind or connect fails, the source has
  already stored the new socket in the channel's `_socket`. The model returns
  only the error, without the channel.
- Channel.Deliveries: states only the length bound. Its exact contents are
  DeliveriesAreOwnTopic.
- Daemon.Play: states only that published messages are kept. Its exact
  behaviour is PlayIsFifo, AfterHaltAtMostOne and RunningWorkerDrains.
- Daemon.Poll: states only what stays unchanged. The queue is stated by
  PollQueuesNonEmptyDirs.
- Daemon.StartPublishers: does not state the registry effects of connect.
  Those are stated by Ipc.Connect.
- Daemon.Start: does not state the registry or the subscriber sockets beyond
  running. FreshStart states the full result for a new daemon.
- Config.ParseRanges: states only the count bound. RangeOf states each
  entry.
- Config.ParseCondition: states the key/value kinds, not every value.
  ConditionFitsRfc and FlagWithValueGetsText state the values.
- Config.ParseImapFilter: states only when no filter comes back. FilterFolders
  states the folders; conditions are ParseConditions.
- Config.ParseAddress: states only that the item must be a map. AddressItem
  states the value.
- Config.ParseMembers: states only the length.
- Config.AddMailboxItem: states bounds and the no-empty-group rule; contents
  are AddressItem and EmptyGroupDropped.
- Config.AddMailboxItems: states only the no-empty-group rule. Contents are
  AddressItemsRoundTrip.
- Config.ParseSmtpDetails: states only the from field; to, cc and bcc are
  ParseMailboxes.
- Config.ParseGlobal: states only what is never read and the missing-key
  case. GlobalDefaults, GlobalNullDefaults and TimeoutRange state the
  defaults and the timeout.
- Config.ParseProtocol: states only the shape and the defaults, not host and
  port. HostPortBlock and PortRange state them for a block of host and port.
- Config.ParseAccount: states only the required keys and the default folder.
- Config.LoadConfig: states only monotonicity and the load-failure case.
  LoadAppends, SecondLoadAppends and MissingGlobalKeepsZeroes add to it.
- Config.KeyOf: states only the unknown case. KeyOfTypeNameRoundTrip states
  the table.
- Lookups through a non-const node (`config`, `global`, `smtp`, `imap`,
  `creds` in src/config.cpp) turn a missing key into an undefined node, not a
  zombie. Converting that without a fallback throws "bad conversion", but the
  model reports InvalidNode for every missing key. Both are YAML::Exception,
  so only the logged text differs. Such a lookup on a null or sequence node
  also turns it into a map, which is not modelled.
- Channel.Subscribe: the callback is always present. An empty
  `std::function` passed to `subscribe` would throw `bad_function_call` on
  the first delivery; that case is not representable.
- Mail.PrepareAttachments: the source as written does not compile. It applies
  `file.second` and `file.first` to `File`, a three-element
  `std::tuple<std::istream&, std::string, std::string>` (include/mail.h:42),
  and its return type differs from the declaration at include/mail.h:63. The
  model takes the evident intent: a file is a path and a MIME type string.
- Serial setters (`SetBaudrate` and the flag setters) change only the stored
  `_config` (src/serial_port.cpp:221). `GetBaudrate` reads the device
  (src/serial_port.cpp:305-306), which gets `_config` only in `Open` or
  `Close`. BaudrateRoundTrip is therefore about a device that carries the
  new settings, not about the device right after a setter call.
- Serial.Close: `_fd` is never reset (src/serial_port.cpp:75-86). A second
  `Close` calls close(2) on the stale descriptor and reports
  SERIAL_CLOSE_FAILED. The model takes close(2)'s result as an input each
  time and does not track that the descriptor is already closed.
