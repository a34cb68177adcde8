/** The connection registry (IPCContext in src/ipc.cpp) and the IPC base object
    that every publisher and subscriber channel is built on.

    The registry maps keys to shared socket handles and 16-bit reference
    counts, one table for publishers and one for subscribers, plus the set of
    ports that have a reader/writer lock. All of its operations run under one
    internal mutex, so each is modelled as one atomic state transition. Socket
    creation is modelled by a counter that hands out fresh handle ids; whether
    the transport can bind or dial an endpoint is a property of the network,
    passed in as a parameter. */
module Ipc {
  import opened Common

  // ---------------------------------------------------------------------------
  // getPort: the regular expression "tcp://.*:(\d+)" searched in the endpoint

  const Scheme: string := "tcp://"

  /** ECMAScript '.' (std::regex's default grammar) does not match these. */
  predicate LineTerminator(c: char) { c == '\n' || c == '\r' }

  /** Position i can end the ".*" part for a match that starts at q: s[i] is the
      ':' and s[i+1] begins the digit group, with no line terminator between
      the scheme and the colon. */
  ghost predicate PortColon(s: string, q: int, i: int) {
    && 0 <= q && q + |Scheme| <= i && i + 1 < |s|
    && s[i] == ':' && IsDigit(s[i + 1])
    && forall j :: q + |Scheme| <= j < i ==> !LineTerminator(s[j])
  }

  /** The pattern matches starting at q. */
  ghost predicate MatchStart(s: string, q: int) {
    OccursAt(s, Scheme, q) && exists i :: PortColon(s, q, i)
  }

  /** The longest run of digits starting at `from`. */
  function DigitRun(s: string, from: nat): (r: string)
    requires from <= |s|
    ensures from + |r| <= |s| && r == s[from..from + |r|]
    ensures forall j :: 0 <= j < |r| ==> IsDigit(r[j])
    ensures from + |r| == |s| || !IsDigit(s[from + |r|])
    decreases |s| - from
  {
    if from == |s| || !IsDigit(s[from]) then "" else [s[from]] + DigitRun(s, from + 1)
  }

  /** Walks from j to the first line terminator (or the end), remembering the
      last position that can serve as the port colon. */
  function ScanColons(s: string, q: nat, j: nat, best: Option<nat>): (r: Option<nat>)
    requires q + |Scheme| <= j <= |s|
    requires forall k :: q + |Scheme| <= k < j ==> !LineTerminator(s[k])
    requires best.Some? ==> PortColon(s, q, best.value) && best.value < j
    requires forall i :: (if best.Some? then best.value else 0) < i < j ==> !PortColon(s, q, i)
    requires best.None? ==> forall i :: i < j ==> !PortColon(s, q, i)
    ensures r.Some? ==> PortColon(s, q, r.value)
    ensures r.Some? ==> forall i :: r.value < i ==> !PortColon(s, q, i)
    ensures r.None? ==> forall i :: !PortColon(s, q, i)
    decreases |s| - j
  {
    if j == |s| || LineTerminator(s[j]) then
      best
    else
      var best' := if s[j] == ':' && j + 1 < |s| && IsDigit(s[j + 1]) then Some(j) else best;
      ScanColons(s, q, j + 1, best')
  }

  /** The greedy ".*": the last admissible colon for a start at q. */
  function LastPortColon(s: string, q: nat): (r: Option<nat>)
    requires q + |Scheme| <= |s|
    ensures r.Some? ==> PortColon(s, q, r.value) && forall i :: r.value < i ==> !PortColon(s, q, i)
    ensures r.None? ==> forall i :: !PortColon(s, q, i)
  {
    ScanColons(s, q, q + |Scheme|, None)
  }

  /** std::regex_search: the leftmost start position that matches, with its colon. */
  function FindMatch(s: string, q: nat): (r: Option<(nat, nat)>)
    requires forall q' :: 0 <= q' < q ==> !MatchStart(s, q')
    ensures r.Some? ==> MatchStart(s, r.value.0) && forall q' :: 0 <= q' < r.value.0 ==> !MatchStart(s, q')
    ensures r.Some? ==> PortColon(s, r.value.0, r.value.1)
    ensures r.Some? ==> forall i :: r.value.1 < i ==> !PortColon(s, r.value.0, i)
    ensures r.None? ==> forall q' :: !MatchStart(s, q')
    decreases |s| - q
  {
    if q + |Scheme| > |s| then
      assert forall q' :: q <= q' ==> !OccursAt(s, Scheme, q');
      None
    else if OccursAt(s, Scheme, q) && LastPortColon(s, q).Some? then
      Some((q, LastPortColon(s, q).value))
    else
      FindMatch(s, q + 1)
  }

  /** q is the leftmost position where the pattern matches. */
  ghost predicate Leftmost(s: string, q: int) {
    MatchStart(s, q) && forall q' :: 0 <= q' < q ==> !MatchStart(s, q')
  }

  /** i is the colon the greedy ".*" settles on for a match starting at q. */
  ghost predicate Greediest(s: string, q: int, i: int) {
    PortColon(s, q, i) && forall i' :: i < i' ==> !PortColon(s, q, i')
  }

  /** IPCContext::getPort: the first capture group of the leftmost match, or
      "" when the endpoint does not match at all. */
  function GetPort(endpoint: string): (r: string)
    ensures (forall q :: !MatchStart(endpoint, q)) <==> r == ""
    ensures forall j :: 0 <= j < |r| ==> IsDigit(r[j])
    ensures forall q, i :: Leftmost(endpoint, q) && Greediest(endpoint, q, i) ==> r == DigitRun(endpoint, i + 1)
  {
    match FindMatch(endpoint, 0)
    case None => ""
    case Some((q, i)) =>
      MatchUnique(endpoint, q, i);
      DigitRun(endpoint, i + 1)
  }

  /** The leftmost start and its greediest colon are each unique. */
  lemma MatchUnique(s: string, q: int, i: int)
    requires Leftmost(s, q) && Greediest(s, q, i)
    ensures forall q2, i2 :: Leftmost(s, q2) && Greediest(s, q2, i2) ==> q2 == q && i2 == i
  {
    forall q2, i2 | Leftmost(s, q2) && Greediest(s, q2, i2)
      ensures q2 == q && i2 == i
    {
    }
  }

  // ---------------------------------------------------------------------------
  // The registry

  /** uint16_t */
  const CountModulus: int := 65536
  type Count = c: int | 0 <= c < 65536

  /** A std::shared_ptr<zmqpp::socket>: null, or one socket object. */
  datatype Socket = NullSocket | Socket(id: nat)

  /** One role's half of the registry: handles and reference counts by key. */
  datatype Table = Table(handles: map<string, Socket>, counts: map<string, Count>)

  datatype Registry = Registry(publishers: Table, subscribers: Table, locks: set<string>, nextSocket: nat)

  function EmptyTable(): Table { Table(map[], map[]) }

  /** IPCContext::IPCContext(): every map empty. */
  function EmptyRegistry(): Registry {
    Registry(EmptyTable(), EmptyTable(), {}, 0)
  }

  /** Every key with a count has a count of at least one. */
  predicate CountsPositive(t: Table) {
    forall k :: k in t.counts ==> t.counts[k] >= 1
  }

  /** The key is gone from both maps. */
  predicate Gone(t: Table, key: string) {
    key !in t.handles && key !in t.counts
  }

  /** add*(endpoint, socket): store the handle and set the count to one,
      overwriting whatever count the key had. */
  function Install(t: Table, key: string, s: Socket): (r: Table)
    ensures key in r.handles && r.handles[key] == s
    ensures key in r.counts && r.counts[key] == 1
    ensures forall k :: k != key ==> (k in r.handles <==> k in t.handles) && (k in r.counts <==> k in t.counts)
    ensures forall k :: k != key && k in t.handles ==> r.handles[k] == t.handles[k]
    ensures forall k :: k != key && k in t.counts ==> r.counts[k] == t.counts[k]
  {
    Table(t.handles[key := s], t.counts[key := 1])
  }

  /** add*(endpoint): one more reference, only when the key already has a
      count. The increment is on a uint16_t and wraps from 65535 to 0. */
  function Retain(t: Table, key: string): (r: Table)
    ensures key !in t.counts ==> r == t
    ensures key in t.counts ==> r.handles == t.handles && key in r.counts
    ensures key in t.counts && t.counts[key] < CountModulus - 1 ==> r.counts[key] == t.counts[key] + 1
    ensures key in t.counts && t.counts[key] == CountModulus - 1 ==> r.counts[key] == 0
    ensures forall k :: k != key ==> (k in r.counts <==> k in t.counts)
    ensures forall k :: k != key && k in t.counts ==> r.counts[k] == t.counts[k]
  {
    if key in t.counts then
      t.(counts := t.counts[key := (t.counts[key] + 1) % CountModulus])
    else t
  }

  /** remove*(endpoint): the last reference erases handle and count; an earlier
      one decrements; a key without a count (or with a wrapped count of zero)
      is left alone. */
  function Release(t: Table, key: string): (r: Table)
    ensures key !in t.counts ==> r == t
    ensures key in t.counts && t.counts[key] == 0 ==> r == t
    ensures key in t.counts && t.counts[key] == 1 ==> Gone(r, key)
    ensures key in t.counts && t.counts[key] > 1 ==>
              r.handles == t.handles && key in r.counts && r.counts[key] == t.counts[key] - 1
    ensures forall k :: k != key ==> (k in r.handles <==> k in t.handles) && (k in r.counts <==> k in t.counts)
    ensures forall k :: k != key && k in t.handles ==> r.handles[k] == t.handles[k]
    ensures forall k :: k != key && k in t.counts ==> r.counts[k] == t.counts[k]
  {
    if key in t.counts && t.counts[key] == 1 then
      Table(t.handles - {key}, t.counts - {key})
    else if key in t.counts && t.counts[key] > 1 then
      t.(counts := t.counts[key := t.counts[key] - 1])
    else t
  }

  /** get*(endpoint): operator[] inserts a null handle for an unknown key. */
  function Lookup(t: Table, key: string): (r: (Table, Socket))
    ensures key in t.handles ==> r == (t, t.handles[key])
    ensures key !in t.handles ==> r == (t.(handles := t.handles[key := NullSocket]), NullSocket)
  {
    if key in t.handles then (t, t.handles[key])
    else (t.(handles := t.handles[key := NullSocket]), NullSocket)
  }

  function HasPublisher(r: Registry, endpoint: string): bool { endpoint in r.publishers.handles }
  function HasSubscriber(r: Registry, key: string): bool { key in r.subscribers.handles }

  /** addPublisher(endpoint, socket) also makes sure the endpoint's port has a lock. */
  function AddPublisherSocket(r: Registry, endpoint: string, s: Socket): (r': Registry)
    ensures r'.publishers == Install(r.publishers, endpoint, s)
    ensures r'.locks == r.locks + {GetPort(endpoint)}
    ensures r'.subscribers == r.subscribers
  {
    r.(publishers := Install(r.publishers, endpoint, s), locks := r.locks + {GetPort(endpoint)})
  }

  /** addSubscriber(key, socket) never creates a lock. */
  function AddSubscriberSocket(r: Registry, key: string, s: Socket): (r': Registry)
    ensures r'.subscribers == Install(r.subscribers, key, s)
    ensures r'.locks == r.locks && r'.publishers == r.publishers
  {
    r.(subscribers := Install(r.subscribers, key, s))
  }

  function AddPublisher(r: Registry, endpoint: string): Registry {
    r.(publishers := Retain(r.publishers, endpoint))
  }

  function AddSubscriber(r: Registry, key: string): Registry {
    r.(subscribers := Retain(r.subscribers, key))
  }

  /** Removal never touches the locks. */
  function RemovePublisher(r: Registry, endpoint: string): (r': Registry)
    ensures r'.locks == r.locks && r'.subscribers == r.subscribers
  {
    r.(publishers := Release(r.publishers, endpoint))
  }

  function RemoveSubscriber(r: Registry, key: string): (r': Registry)
    ensures r'.locks == r.locks && r'.publishers == r.publishers
  {
    r.(subscribers := Release(r.subscribers, key))
  }

  /** getMutex: operator[] on the lock table creates the port's lock if needed. */
  function GetMutex(r: Registry, endpoint: string): (r': Registry)
    ensures r'.locks == r.locks + {GetPort(endpoint)}
    ensures HasMutex(r', endpoint)
    ensures r'.publishers == r.publishers && r'.subscribers == r.subscribers
  {
    r.(locks := r.locks + {GetPort(endpoint)})
  }

  function HasMutex(r: Registry, endpoint: string): bool {
    GetPort(endpoint) in r.locks
  }

  // ---------------------------------------------------------------------------
  // The IPC object: connect and disconnect

  datatype Role = PublisherRole | SubscriberRole

  /** An IPC object: endpoint, topic, role and its copy of the shared handle. */
  datatype Ipc = Ipc(endpoint: string, topic: string, role: Role, socket: Socket)

  /** What the transport can do: which endpoints a publish socket can bind and
      which a subscribe socket can dial. */
  datatype Network = Network(bindable: set<string>, dialable: set<string>)

  /** A zmqpp exception thrown by bind or connect; it propagates to the caller. */
  datatype TransportFault = BindFailed(endpoint: string) | DialFailed(endpoint: string)

  function NewIpc(endpoint: string, topic: string, role: Role): Ipc {
    Ipc(endpoint, topic, role, NullSocket)
  }

  /** The registry key connect uses: the endpoint for a publisher, the
      endpoint followed by the topic for a subscriber. */
  function ConnectKey(ch: Ipc): string {
    if ch.role == PublisherRole then ch.endpoint else ch.endpoint + ch.topic
  }

  /** IPC::connect */
  function Connect(r: Registry, ch: Ipc, net: Network): (res: Result<(Registry, Ipc), TransportFault>)
    ensures ch.role == PublisherRole && !HasPublisher(r, ch.endpoint) ==>
      (ch.endpoint in net.bindable <==> res.Ok?)
    ensures ch.role == SubscriberRole && !HasSubscriber(r, ConnectKey(ch)) ==>
      (ch.endpoint in net.dialable <==> res.Ok?)
    ensures res.Ok? ==> res.value.1 == ch.(socket := res.value.1.socket)
    ensures res.Ok? && ch.role == PublisherRole ==>
      && HasPublisher(res.value.0, ch.endpoint)
      && res.value.0.publishers.handles[ch.endpoint] == res.value.1.socket
      && (!HasPublisher(r, ch.endpoint) || HasMutex(r, ch.endpoint) ==> HasMutex(res.value.0, ch.endpoint))
      && res.value.0.locks >= r.locks
      && res.value.0.subscribers == r.subscribers
    ensures res.Ok? && ch.role == SubscriberRole ==>
      && HasSubscriber(res.value.0, ConnectKey(ch))
      && res.value.0.subscribers.handles[ConnectKey(ch)] == res.value.1.socket
      && res.value.0.publishers == r.publishers
      && res.value.0.locks == r.locks
    ensures res.Ok? && ch.role == PublisherRole && !HasPublisher(r, ch.endpoint) ==>
      && res.value.1.socket.Socket?
      && ch.endpoint in res.value.0.publishers.counts && res.value.0.publishers.counts[ch.endpoint] == 1
    ensures res.Ok? && ch.role == SubscriberRole && !HasSubscriber(r, ConnectKey(ch)) ==>
      && res.value.1.socket.Socket?
      && ConnectKey(ch) in res.value.0.subscribers.counts && res.value.0.subscribers.counts[ConnectKey(ch)] == 1
    ensures ch.role == PublisherRole && HasPublisher(r, ch.endpoint) ==>
      && res.Ok?
      && res.value.1.socket == r.publishers.handles[ch.endpoint]
      && res.value.0.publishers == Retain(r.publishers, ch.endpoint)
      && res.value.0.subscribers == r.subscribers
      && res.value.0.locks == r.locks
      && res.value.0.nextSocket == r.nextSocket
    ensures ch.role == SubscriberRole && HasSubscriber(r, ConnectKey(ch)) ==>
      && res.Ok?
      && res.value.1.socket == r.subscribers.handles[ConnectKey(ch)]
      && res.value.0.subscribers == Retain(r.subscribers, ConnectKey(ch))
      && res.value.0.publishers == r.publishers
      && res.value.0.locks == r.locks
      && res.value.0.nextSocket == r.nextSocket
  {
    var key := ConnectKey(ch);
    if ch.role == PublisherRole then
      if !HasPublisher(r, key) then
        var s := Socket(r.nextSocket);
        if key !in net.bindable then Err(BindFailed(key))
        else Ok((AddPublisherSocket(r.(nextSocket := r.nextSocket + 1), key, s), ch.(socket := s)))
      else
        var (t, s) := Lookup(r.publishers, key);
        Ok((AddPublisher(r.(publishers := t), key), ch.(socket := s)))
    else
      if !HasSubscriber(r, key) then
        var s := Socket(r.nextSocket);
        if ch.endpoint !in net.dialable then Err(DialFailed(ch.endpoint))
        else Ok((AddSubscriberSocket(r.(nextSocket := r.nextSocket + 1), key, s), ch.(socket := s)))
      else
        var (t, s) := Lookup(r.subscribers, key);
        Ok((AddSubscriber(r.(subscribers := t), key), ch.(socket := s)))
  }

  /** IPC::disconnect: both roles release the key `endpoint`, so a subscriber
      releases a key other than the endpoint+topic key it connected with. */
  function Disconnect(r: Registry, ch: Ipc): (r': Registry)
    ensures r'.locks == r.locks && r'.nextSocket == r.nextSocket
    ensures ch.role == PublisherRole ==>
      r'.publishers == Release(r.publishers, ch.endpoint) && r'.subscribers == r.subscribers
    ensures ch.role == SubscriberRole ==>
      r'.subscribers == Release(r.subscribers, ch.endpoint) && r'.publishers == r.publishers
    ensures ch.role == SubscriberRole && ch.topic != "" ==>
      var key := ConnectKey(ch);
      && (key in r'.subscribers.handles <==> key in r.subscribers.handles)
      && (key in r.subscribers.handles ==> r'.subscribers.handles[key] == r.subscribers.handles[key])
      && (key in r'.subscribers.counts <==> key in r.subscribers.counts)
      && (key in r.subscribers.counts ==> r'.subscribers.counts[key] == r.subscribers.counts[key])
  {
    if ch.role == PublisherRole then RemovePublisher(r, ch.endpoint)
    else RemoveSubscriber(r, ch.endpoint)
  }

  // ---------------------------------------------------------------------------
  // Properties

  /** The count invariant survives every table operation, except an increment
      of a count already at 65535, which wraps to zero. */
  lemma CountsStayPositive(t: Table, key: string, s: Socket)
    requires CountsPositive(t)
    ensures CountsPositive(Install(t, key, s))
    ensures CountsPositive(Release(t, key))
    ensures key !in t.counts || t.counts[key] < CountModulus - 1 ==> CountsPositive(Retain(t, key))
  {
  }

  /** The wrap-around: after 65535 references one more makes the count zero,
      and from then on removal no longer erases the entry. */
  lemma RetainWrapsAtLimit(t: Table, key: string)
    requires key in t.counts && t.counts[key] == CountModulus - 1
    ensures Retain(t, key).counts[key] == 0
    ensures Release(Retain(t, key), key) == Retain(t, key)
  {
  }

  /** n plain adds. */
  function RetainTimes(t: Table, key: string, n: nat): Table
    decreases n
  {
    if n == 0 then t else Retain(RetainTimes(t, key, n - 1), key)
  }

  /** n removals. */
  function ReleaseTimes(t: Table, key: string, n: nat): Table
    decreases n
  {
    if n == 0 then t else ReleaseTimes(Release(t, key), key, n - 1)
  }

  lemma {:induction false} RetainTimesCount(t: Table, key: string, n: nat)
    requires key in t.counts && t.counts[key] + n < CountModulus
    ensures var t' := RetainTimes(t, key, n);
      && key in t'.counts && t'.counts[key] == t.counts[key] + n
      && t'.handles == t.handles
      && forall k :: k != key ==> (k in t'.counts <==> k in t.counts) && (k in t.counts ==> t'.counts[k] == t.counts[k])
    decreases n
  {
    if n > 0 { RetainTimesCount(t, key, n - 1); }
  }

  lemma {:induction false} ReleaseTimesCount(t: Table, key: string, n: nat)
    requires key in t.counts && t.counts[key] == n && n >= 1
    ensures var t' := ReleaseTimes(t, key, n);
      && Gone(t', key)
      && (forall k :: k != key ==> (k in t'.handles <==> k in t.handles) && (k in t.handles ==> t'.handles[k] == t.handles[k]))
      && (forall k :: k != key ==> (k in t'.counts <==> k in t.counts) && (k in t.counts ==> t'.counts[k] == t.counts[k]))
    decreases n
  {
    if n > 1 { ReleaseTimesCount(Release(t, key), key, n - 1); }
  }

  /** Acquire k, release k: one add with a socket, k-1 plain adds and k removals
      leave no handle and no count for the key and every other key as it was
      (for k up to 65535, below the 16-bit wrap-around). */
  lemma AcquireReleaseBalanced(t: Table, key: string, s: Socket, k: nat)
    requires 1 <= k < CountModulus
    ensures var t' := ReleaseTimes(RetainTimes(Install(t, key, s), key, k - 1), key, k);
      && Gone(t', key)
      && (forall other :: other != key ==> (other in t'.handles <==> other in t.handles) && (other in t.handles ==> t'.handles[other] == t.handles[other]))
      && (forall other :: other != key ==> (other in t'.counts <==> other in t.counts) && (other in t.counts ==> t'.counts[other] == t.counts[other]))
  {
    var t1 := Install(t, key, s);
    RetainTimesCount(t1, key, k - 1);
    ReleaseTimesCount(RetainTimes(t1, key, k - 1), key, k);
  }

  /** Releasing a key that holds no count never changes the table, however
      often it is done: there is no underflow. */
  lemma {:induction false} ReleaseAbsentIsNoOp(t: Table, key: string, n: nat)
    requires key !in t.counts
    ensures ReleaseTimes(t, key, n) == t
    decreases n
  {
    if n > 0 { ReleaseAbsentIsNoOp(t, key, n - 1); }
  }

  /** getMutex inserts the lock it looks up. */
  lemma GetMutexThenHasMutex(r: Registry, e: string, e2: string)
    requires GetPort(e) == GetPort(e2)
    ensures HasMutex(GetMutex(r, e), e2)
  {
  }

  /** Every publisher endpoint has its port's lock. */
  ghost predicate LocksCover(r: Registry) {
    forall e :: e in r.publishers.handles ==> GetPort(e) in r.locks
  }

  /** connect and disconnect keep every publisher endpoint covered by a lock,
      so a publisher that finds its handle in the registry also finds a lock. */
  lemma ConnectKeepsLocksCover(r: Registry, ch: Ipc, net: Network)
    requires LocksCover(r)
    ensures Connect(r, ch, net).Ok? ==> LocksCover(Connect(r, ch, net).value.0)
    ensures LocksCover(Disconnect(r, ch))
  {
  }

  /** Publisher round trip: on a registry without the endpoint, connect then
      disconnect leaves no publisher entry, but the port's lock stays. */
  lemma PublisherConnectDisconnect(r: Registry, endpoint: string, topic: string, net: Network)
    requires !HasPublisher(r, endpoint) && endpoint in net.bindable
    ensures var res := Connect(r, NewIpc(endpoint, topic, PublisherRole), net);
      && res.Ok?
      && Gone(Disconnect(res.value.0, res.value.1).publishers, endpoint)
      && HasMutex(Disconnect(res.value.0, res.value.1), endpoint)
  {
  }

  /** Subscriber asymmetry: a subscriber connected under endpoint+topic is
      disconnected under endpoint, so (for a non-empty topic) its own entry,
      handle and count, is still there afterwards. */
  lemma SubscriberDisconnectMissesOwnKey(r: Registry, endpoint: string, topic: string, net: Network)
    requires topic != ""
    requires !HasSubscriber(r, endpoint + topic) && endpoint in net.dialable
    ensures var ch := NewIpc(endpoint, topic, SubscriberRole);
      var res := Connect(r, ch, net);
      && res.Ok?
      && var r2 := Disconnect(res.value.0, res.value.1);
      && HasSubscriber(r2, endpoint + topic)
      && r2.subscribers.counts[endpoint + topic] == 1
  {
    assert endpoint + topic != endpoint by {
      assert |endpoint + topic| > |endpoint|;
    }
  }

  /** A second connect on the same key reuses the first handle and takes one
      more reference. */
  lemma SecondPublisherReusesSocket(r: Registry, a: Ipc, b: Ipc, net: Network)
    requires a.role == PublisherRole && b.role == PublisherRole && a.endpoint == b.endpoint
    requires !HasPublisher(r, a.endpoint) && a.endpoint in net.bindable
    ensures var r1 := Connect(r, a, net);
      r1.Ok? &&
      var r2 := Connect(r1.value.0, b, net);
      && r2.Ok?
      && r2.value.1.socket == r1.value.1.socket
      && r2.value.0.publishers.counts[a.endpoint] == 2
  {
  }
}
