/** The daemon (src/daemon.cpp, include/daemon.h): one publish service per
    topic with a FIFO queue drained by a worker, the subscribers that feed the
    daemon's own handlers, the running flag, and the mail poll that publishes
    each account's result directory.

    Threads are modelled as explicit steps. The worker thread is a small state
    machine over the phases of its loop; every event it can observe (a message
    pushed and notified, one step of the worker, the running flag cleared) is
    one transition, so an arbitrary interleaving is a sequence of events. */
module Daemon {
  import opened Common
  import opened Ipc
  import opened Channel
  import Mail

  // ---------------------------------------------------------------------------
  // Topics and service types

  const TopicMailRecv: string := "mail_recv"
  const TopicTaskRecv: string := "task_recv"
  const TopicMailSend: string := "mail_send"

  datatype ServiceType = MailRecvService | TaskRecvService | MailSendService

  /** The enumerators' integer values. */
  function TypeCode(t: ServiceType): (c: nat)
    ensures c <= 2
  {
    match t
    case MailRecvService => 0
    case TaskRecvService => 1
    case MailSendService => 2
  }

  /** The three topics and the three codes are pairwise distinct. */
  lemma TopicsAndCodesDistinct()
    ensures TopicMailRecv != TopicTaskRecv && TopicMailRecv != TopicMailSend && TopicTaskRecv != TopicMailSend
    ensures forall a, b :: TypeCode(a) == TypeCode(b) ==> a == b
  {
    assert TopicMailRecv[0] != TopicTaskRecv[0];
    assert TopicMailRecv[5] != TopicMailSend[5];
    assert TopicTaskRecv[0] != TopicMailSend[0];
  }

  // ---------------------------------------------------------------------------
  // getSubscriberEndpoint

  const Loopback: string := "tcp://localhost"

  /** ":" followed by one or more digits, to the end. */
  predicate PortSuffix(s: string) {
    |s| >= 2 && s[0] == ':' && forall i :: 1 <= i < |s| ==> IsDigit(s[i])
  }

  /** The hosts the rewrite recognises, each with its scheme. */
  predicate WildcardHost(h: string) {
    h == "tcp://*" || h == "tcp://0.0.0.0"
  }

  /** The whole endpoint matches tcp://(*|0.0.0.0):digits, with host h. */
  predicate BindsAllWith(e: string, h: string) {
    WildcardHost(h) && IsPrefix(h, e) && PortSuffix(e[|h|..])
  }

  predicate BindsAll(e: string) {
    BindsAllWith(e, "tcp://*") || BindsAllWith(e, "tcp://0.0.0.0")
  }

  /** Daemon::getSubscriberEndpoint: a publisher bound on every interface is
      reached through the loopback host; anything else is dialled as is. */
  function SubscriberEndpoint(e: string): (r: string)
    ensures !BindsAll(e) ==> r == e
    ensures BindsAll(e) ==> exists port :: PortSuffix(port) && IsSuffix(port, e) && r == Loopback + port
  {
    if BindsAllWith(e, "tcp://*") then Loopback + e[7..]
    else if BindsAllWith(e, "tcp://0.0.0.0") then Loopback + e[13..]
    else e
  }

  /** A wildcard endpoint keeps everything after its host: the port. */
  lemma SubscriberEndpointOfWildcard(e: string, h: string)
    requires BindsAllWith(e, h)
    ensures SubscriberEndpoint(e) == Loopback + e[|h|..]
  {
  }

  /** A loopback endpoint is not a wildcard one. */
  lemma LoopbackNotWildcard(port: string)
    ensures !BindsAll(Loopback + port)
  {
    assert (Loopback + port)[6] == 'l';
    assert "tcp://*"[6] == '*';
    assert "tcp://0.0.0.0"[6] == '0';
  }

  /** Rewriting twice is rewriting once. */
  lemma SubscriberEndpointIdempotent(e: string)
    ensures SubscriberEndpoint(SubscriberEndpoint(e)) == SubscriberEndpoint(e)
  {
    if BindsAll(e) {
      var port :| PortSuffix(port) && IsSuffix(port, e) && SubscriberEndpoint(e) == Loopback + port;
      LoopbackNotWildcard(port);
    }
  }

  // ---------------------------------------------------------------------------
  // A publish service and its worker

  /** Where the worker thread is in its loop: before the running check, about
      to evaluate the wait predicate, asleep on the condition variable, or
      finished. */
  datatype Phase = AtLoopHead | Checking | Blocked | Exited

  /** A ServiceContext: its type, whether it holds string messages (the only
      instantiation the services are looked up with), its publisher, the queue,
      what the worker has published so far (in order) and the worker thread,
      if one was started. */
  datatype Service = Service(
    kind: ServiceType,
    holdsStrings: bool,
    publisher: Ipc,
    queue: seq<string>,
    published: seq<string>,
    worker: Option<Phase>)

  /** push under the service mutex, then notify_one: a sleeping worker wakes
      and re-evaluates its predicate. */
  function Enqueue(s: Service, msg: string): (s': Service)
    ensures s'.queue == s.queue + [msg]
    ensures s'.published == s.published && s'.publisher == s.publisher && s'.kind == s.kind
    ensures s'.holdsStrings == s.holdsStrings
    ensures s.worker == Some(Blocked) ==> s'.worker == Some(Checking)
    ensures s.worker != Some(Blocked) ==> s'.worker == s.worker
  {
    s.(queue := s.queue + [msg],
       worker := if s.worker == Some(Blocked) then Some(Checking) else s.worker)
  }

  /** One step of the worker loop, given the current running flag. At the loop
      head it exits when not running. Its wait predicate lets it through when
      the queue is non-empty or running is false: it then publishes the queue's
      front, or, with an empty queue, goes back to the running check; otherwise
      it sleeps until notified. */
  function WorkerStep(running: bool, s: Service): (s': Service)
    ensures s'.kind == s.kind && s'.publisher == s.publisher && s'.holdsStrings == s.holdsStrings
    ensures s.worker == Some(Checking) && s.queue != [] ==>
      s'.published == s.published + [s.queue[0]] && s'.queue == s.queue[1..] && s'.worker == Some(AtLoopHead)
    ensures !(s.worker == Some(Checking) && s.queue != []) ==> s'.published == s.published && s'.queue == s.queue
    ensures s.worker == Some(Checking) && s.queue == [] ==>
      s'.worker == (if running then Some(Blocked) else Some(AtLoopHead))
    ensures s.worker == Some(AtLoopHead) ==> s'.worker == (if running then Some(Checking) else Some(Exited))
    ensures s.worker.None? || s.worker == Some(Blocked) || s.worker == Some(Exited) ==> s' == s
  {
    match s.worker
    case Some(AtLoopHead) => s.(worker := Some(if running then Checking else Exited))
    case Some(Checking) =>
      if s.queue != [] then
        s.(queue := s.queue[1..], published := s.published + [s.queue[0]], worker := Some(AtLoopHead))
      else if !running then s.(worker := Some(AtLoopHead))
      else s.(worker := Some(Blocked))
    case _ => s
  }

  /** What can happen to one service while its worker runs. */
  datatype Event = Push(msg: string) | Step | Halt

  /** Play a sequence of events from a running flag and a service state. */
  function Play(running: bool, s: Service, events: seq<Event>): (res: (bool, Service))
    ensures s.published <= res.1.published
    decreases |events|
  {
    if events == [] then (running, s)
    else match events[0]
      case Push(m) => Play(running, Enqueue(s, m), events[1..])
      case Step => Play(running, WorkerStep(running, s), events[1..])
      case Halt => Play(false, s, events[1..])
  }

  /** The messages pushed by a sequence of events, in order. */
  function Pushed(events: seq<Event>): seq<string> {
    if events == [] then []
    else if events[0].Push? then [events[0].msg] + Pushed(events[1..])
    else Pushed(events[1..])
  }

  /** FIFO: under any interleaving, what has been published followed by what
      is still queued is exactly what was there before followed by everything
      pushed, in push order. Nothing is lost, duplicated or reordered. */
  lemma {:induction false} PlayIsFifo(running: bool, s: Service, events: seq<Event>)
    ensures var s' := Play(running, s, events).1;
      s'.published + s'.queue == s.published + s.queue + Pushed(events)
    decreases |events|
  {
    if events != [] {
      match events[0]
      case Push(m) =>
        PlayIsFifo(running, Enqueue(s, m), events[1..]);
      case Step =>
        PlayIsFifo(running, WorkerStep(running, s), events[1..]);
        if s.worker == Some(Checking) && s.queue != [] {
          assert s.queue == [s.queue[0]] + s.queue[1..];
        }
      case Halt =>
        PlayIsFifo(false, s, events[1..]);
    }
  }

  /** So what has been published is always a prefix of what was pushed. */
  lemma PublishedIsPrefixOfPushed(s: Service, running: bool, events: seq<Event>)
    requires s.published == [] && s.queue == []
    ensures IsPrefixSeq(Play(running, s, events).1.published, Pushed(events))
  {
    PlayIsFifo(running, s, events);
    var s' := Play(running, s, events).1;
    assert Pushed(events) == s'.published + s'.queue;
    assert Pushed(events)[..|s'.published|] == s'.published;
  }

  predicate IsPrefixSeq<T(==)>(a: seq<T>, b: seq<T>) {
    |a| <= |b| && b[..|a|] == a
  }

  /** How many more messages a worker can publish once running is false. */
  function Budget(p: Option<Phase>): nat {
    match p
    case Some(Checking) => 1
    case Some(Blocked) => 1
    case _ => 0
  }

  /** Once running is false the worker publishes at most the one message it
      takes at its next predicate check, whatever is pushed meanwhile, and then
      it can only go on to exit. */
  lemma {:induction false} AfterHaltAtMostOne(s: Service, events: seq<Event>)
    ensures |Play(false, s, events).1.published| <= |s.published| + Budget(s.worker)
    decreases |events|
  {
    if events != [] {
      match events[0]
      case Push(m) =>
        AfterHaltAtMostOne(Enqueue(s, m), events[1..]);
      case Step =>
        AfterHaltAtMostOne(WorkerStep(false, s), events[1..]);
      case Halt =>
        AfterHaltAtMostOne(s, events[1..]);
    }
  }

  /** The events that are worker steps only. */
  function Steps(n: nat): (es: seq<Event>)
    ensures |es| == n && forall i :: 0 <= i < n ==> es[i] == Step
  {
    if n == 0 then [] else [Step] + Steps(n - 1)
  }

  /** stop does not notify the condition variable: a worker asleep on an empty
      queue stays asleep after running is cleared until someone pushes. */
  lemma {:induction false} HaltDoesNotWakeWorker(running: bool, s: Service, events: seq<Event>)
    requires s.worker == Some(Blocked)
    requires forall i :: 0 <= i < |events| ==> !events[i].Push?
    ensures Play(running, s, events).1 == s
    decreases |events|
  {
    if events != [] {
      HaltDoesNotWakeWorker(if events[0].Halt? then false else running, s, events[1..]);
    }
  }

  /** While running, two steps per queued message move the whole queue, in
      order, to the published messages. */
  lemma {:induction false} RunningWorkerDrains(s: Service)
    requires s.worker == Some(AtLoopHead)
    ensures var s' := Play(true, s, Steps(2 * |s.queue|)).1;
      s'.published == s.published + s.queue && s'.queue == [] && s'.worker == Some(AtLoopHead)
    decreases |s.queue|
  {
    if s.queue != [] {
      var s1 := WorkerStep(true, s);
      var s2 := WorkerStep(true, s1);
      assert Steps(2 * |s.queue|) == [Step, Step] + Steps(2 * |s2.queue|);
      RunningWorkerDrains(s2);
      assert s.queue == [s.queue[0]] + s2.queue;
    }
  }

  // ---------------------------------------------------------------------------
  // The daemon

  /** The daemon's state. Services and subscribers are keyed by endpoint +
      topic; a subscriber entry may hold a null pointer. */
  datatype Daemon = Daemon(
    mailEnabled: bool,
    endpoint: string,
    running: bool,
    services: map<string, Service>,
    subscribers: map<string, Option<Subscriber>>,
    timerArmed: bool,
    registry: Registry)

  /** Daemon::Daemon: reads the check interval and endpoint from the
      configuration and creates the mail_recv service and subscriber only. */
  function NewDaemon(checkMailIntervalMs: int, endpoint: string, r: Registry): (d: Daemon)
    ensures d.mailEnabled <==> checkMailIntervalMs > 0
    ensures !d.running && !d.timerArmed && d.endpoint == endpoint && d.registry == r
    ensures d.services.Keys == {endpoint + TopicMailRecv}
    ensures d.services[endpoint + TopicMailRecv] ==
      Service(MailRecvService, true, NewPublisher(endpoint, TopicMailRecv), [], [], None)
    ensures d.subscribers.Keys == {endpoint + TopicMailRecv}
    ensures d.subscribers[endpoint + TopicMailRecv] ==
      Some(NewSubscriber(SubscriberEndpoint(endpoint), TopicMailRecv))
  {
    var key := endpoint + TopicMailRecv;
    var service := Service(MailRecvService, true, NewPublisher(endpoint, TopicMailRecv), [], [], None);
    var subscriber := NewSubscriber(SubscriberEndpoint(endpoint), TopicMailRecv);
    var d := Daemon(checkMailIntervalMs > 0, endpoint, false, map[key := service], map[key := Some(subscriber)], false, r);
    assert d.services[key] == service && d.subscribers[key] == Some(subscriber);
    d
  }

  /** Why starting can fail: the transport refused; a thread was assigned
      over one that is still joinable, which terminates the process; or a
      null socket handle taken from the registry would be dereferenced. */
  datatype StartFault = Transport(fault: TransportFault) | Terminated | NullDereference

  /** An iteration order of a map's keys: each key once. */
  ghost predicate Enumerates<V>(order: seq<string>, m: map<string, V>) {
    && (forall k :: k in m <==> k in order)
    && (forall i, j :: 0 <= i < j < |order| ==> order[i] != order[j])
  }

  /** A service after startPublishService reached it: publisher connected and
      worker at its loop head, queue and history untouched. */
  predicate Started(before: Service, after: Service) {
    after == before.(publisher := after.publisher, worker := Some(AtLoopHead))
  }

  /** startPublishService over the keys still to visit: services holding
      strings connect their publisher, then get a worker at its loop head;
      the others are skipped. */
  function StartPublishers(d: Daemon, keys: seq<string>, net: Network): (res: Result<Daemon, StartFault>)
    requires forall i :: 0 <= i < |keys| ==> keys[i] in d.services
    requires forall i, j :: 0 <= i < j < |keys| ==> keys[i] != keys[j]
    ensures res.Ok? ==> res.value == d.(registry := res.value.registry, services := res.value.services)
    ensures res.Ok? ==> res.value.services.Keys == d.services.Keys
    ensures res.Ok? ==> forall k :: k in keys && d.services[k].holdsStrings ==>
      Started(d.services[k], res.value.services[k])
    ensures res.Ok? ==> forall k :: k in d.services && (k !in keys || !d.services[k].holdsStrings) ==>
      res.value.services[k] == d.services[k]
    decreases |keys|
  {
    if keys == [] then Ok(d)
    else
      var k := keys[0];
      var s := d.services[k];
      if !s.holdsStrings then StartPublishers(d, keys[1..], net)
      else match Connect(d.registry, s.publisher, net)
        case Err(f) => Err(Transport(f))
        case Ok((r, p)) =>
          if s.worker.Some? then Err(Terminated)
          else
            var d' := d.(registry := r, services := d.services[k := s.(publisher := p, worker := Some(AtLoopHead))]);
            assert k !in keys[1..];
            StartPublishers(d', keys[1..], net)
  }

  /** One subscriber lookup in startSubscribeService. operator[] inserts a
      null entry for a missing key; a null entry is skipped; a real subscriber
      is connected and subscribed. */
  function StartSubscriber(d: Daemon, topic: string, net: Network): (res: Result<Daemon, StartFault>)
    ensures res.Ok? ==> d.endpoint + topic in res.value.subscribers
    ensures res.Ok? ==> res.value.subscribers.Keys == d.subscribers.Keys + {d.endpoint + topic}
    ensures res.Ok? ==> forall k :: k in d.subscribers && k != d.endpoint + topic ==> res.value.subscribers[k] == d.subscribers[k]
    ensures res.Ok? && d.endpoint + topic !in d.subscribers ==> res.value.subscribers[d.endpoint + topic] == None
    ensures res.Ok? && d.endpoint + topic in d.subscribers && d.subscribers[d.endpoint + topic].Some? ==>
      && res.value.subscribers[d.endpoint + topic].Some?
      && res.value.subscribers[d.endpoint + topic].value.running
      && res.value.subscribers[d.endpoint + topic].value.ipc.topic == d.subscribers[d.endpoint + topic].value.ipc.topic
    ensures res.Ok? ==> res.value.services == d.services && res.value.running == d.running
    ensures res.Ok? ==> res.value.endpoint == d.endpoint && res.value.mailEnabled == d.mailEnabled
    ensures res.Ok? ==> res.value.timerArmed == d.timerArmed
  {
    var key := d.endpoint + topic;
    if key !in d.subscribers then Ok(d.(subscribers := d.subscribers[key := None]))
    else match d.subscribers[key]
      case None => Ok(d)
      case Some(s) =>
        match Connect(d.registry, s.ipc, net)
        case Err(f) => Err(Transport(f))
        case Ok((r, ch)) =>
          if s.joinable then Err(Terminated)
          else if ch.socket.NullSocket? then Err(NullDereference)
          else Ok(d.(registry := r, subscribers := d.subscribers[key := Some(Subscribe(s.(ipc := ch)))]))
  }

  function Then(res: Result<Daemon, StartFault>, topic: string, net: Network): Result<Daemon, StartFault> {
    match res
    case Err(f) => Err(f)
    case Ok(d) => StartSubscriber(d, topic, net)
  }

  /** Daemon::start: a no-op when running. Otherwise set running, then
      run(): start the publish services (keys in the map's iteration order),
      the subscribers, and the mail timer when mail is enabled. (start then
      blocks until stop; the state here is the one the daemon waits in.) */
  function Start(d: Daemon, order: seq<string>, net: Network): (res: Result<Daemon, StartFault>)
    requires Enumerates(order, d.services)
    ensures d.running ==> res == Ok(d)
    ensures res.Ok? ==> res.value.running
    ensures res.Ok? && !d.running ==> res.value.timerArmed == (d.timerArmed || d.mailEnabled)
    ensures res.Ok? && !d.running ==>
      res.value.subscribers.Keys == d.subscribers.Keys + {d.endpoint + TopicMailRecv, d.endpoint + TopicTaskRecv, d.endpoint + TopicMailSend}
    ensures res.Ok? ==> res.value.services.Keys == d.services.Keys
    ensures res.Ok? && !d.running ==> forall k :: k in d.services && d.services[k].holdsStrings ==>
      res.value.services[k].worker == Some(AtLoopHead)
  {
    if d.running then Ok(d)
    else
      match StartPublishers(d.(running := true), order, net)
      case Err(f) => Err(f)
      case Ok(d1) =>
        SubscriberChain(d1, net);
        var res := Then(Then(StartSubscriber(d1, TopicMailRecv, net), TopicTaskRecv, net), TopicMailSend, net);
        match res
        case Err(f) => Err(f)
        case Ok(d2) => Ok(d2.(timerArmed := d2.timerArmed || d2.mailEnabled))
  }

  /** The three lookups of startSubscribeService create all three subscriber
      slots and leave the services, the flags and the timer alone. */
  lemma SubscriberChain(d1: Daemon, net: Network)
    ensures var res := Then(Then(StartSubscriber(d1, TopicMailRecv, net), TopicTaskRecv, net), TopicMailSend, net);
      res.Ok? ==>
        && res.value.subscribers.Keys ==
             d1.subscribers.Keys + {d1.endpoint + TopicMailRecv, d1.endpoint + TopicTaskRecv, d1.endpoint + TopicMailSend}
        && res.value.services == d1.services && res.value.running == d1.running
        && res.value.mailEnabled == d1.mailEnabled && res.value.timerArmed == d1.timerArmed
  {
    var r1 := StartSubscriber(d1, TopicMailRecv, net);
    if r1.Ok? {
      var r2 := StartSubscriber(r1.value, TopicTaskRecv, net);
      if r2.Ok? {
        var r3 := StartSubscriber(r2.value, TopicMailSend, net);
        assert r2.value.endpoint == d1.endpoint;
      }
    }
  }

  /** The three subscriber lookups of startSubscribeService, on a daemon
      with a mail_recv subscriber and no entries for the other two topics. */
  lemma SubscriberStages(d1: Daemon, net: Network)
    requires d1.endpoint + TopicMailRecv in d1.subscribers && d1.subscribers[d1.endpoint + TopicMailRecv].Some?
    requires d1.endpoint + TopicTaskRecv !in d1.subscribers && d1.endpoint + TopicMailSend !in d1.subscribers
    ensures var res := Then(Then(StartSubscriber(d1, TopicMailRecv, net), TopicTaskRecv, net), TopicMailSend, net);
      res.Ok? ==>
        && res.value.subscribers[d1.endpoint + TopicMailRecv].Some?
        && res.value.subscribers[d1.endpoint + TopicMailRecv].value.running
        && res.value.subscribers[d1.endpoint + TopicTaskRecv] == None
        && res.value.subscribers[d1.endpoint + TopicMailSend] == None
  {
    TopicsAndCodesDistinct();
    var e := d1.endpoint;
    SuffixesDistinct(e, TopicMailRecv, TopicTaskRecv);
    SuffixesDistinct(e, TopicMailRecv, TopicMailSend);
    SuffixesDistinct(e, TopicTaskRecv, TopicMailSend);
    var mr, tr, ms := e + TopicMailRecv, e + TopicTaskRecv, e + TopicMailSend;
    var r2 := StartSubscriber(d1, TopicMailRecv, net);
    if r2.Ok? {
      var d2 := r2.value;
      assert tr !in d2.subscribers && ms !in d2.subscribers;
      var r3 := StartSubscriber(d2, TopicTaskRecv, net);
      if r3.Ok? {
        var d3 := r3.value;
        assert d3.subscribers[tr] == None && d3.subscribers[mr] == d2.subscribers[mr];
        assert ms !in d3.subscribers;
      }
    }
  }

  /** startPublishService on a fresh daemon: its one service gets a worker,
      the subscriber map is untouched. */
  lemma PublisherStage(d: Daemon, net: Network)
    requires d.endpoint + TopicMailRecv in d.services && d.services[d.endpoint + TopicMailRecv].holdsStrings
    ensures var rp := StartPublishers(d, [d.endpoint + TopicMailRecv], net);
      rp.Ok? ==>
        && rp.value.subscribers == d.subscribers && rp.value.endpoint == d.endpoint
        && rp.value.mailEnabled == d.mailEnabled && rp.value.timerArmed == d.timerArmed
        && rp.value.services[d.endpoint + TopicMailRecv].worker == Some(AtLoopHead)
  {
    var k := d.endpoint + TopicMailRecv;
    assert k in [k];
  }

  /** A freshly constructed daemon that starts has a running mail_recv
      subscriber, null entries for the task_recv and mail_send keys, a worker
      for its one service, and its timer armed exactly when mail is enabled. */
  lemma FreshStart(interval: int, endpoint: string, r: Registry, net: Network)
    ensures var d := NewDaemon(interval, endpoint, r);
      var res := Start(d, [endpoint + TopicMailRecv], net);
      res.Ok? ==>
        && res.value.subscribers[endpoint + TopicMailRecv].Some?
        && res.value.subscribers[endpoint + TopicMailRecv].value.running
        && res.value.subscribers[endpoint + TopicTaskRecv] == None
        && res.value.subscribers[endpoint + TopicMailSend] == None
        && res.value.services[endpoint + TopicMailRecv].worker == Some(AtLoopHead)
        && (res.value.timerArmed <==> interval > 0)
  {
    TopicsAndCodesDistinct();
    SuffixesDistinct(endpoint, TopicMailRecv, TopicTaskRecv);
    SuffixesDistinct(endpoint, TopicMailRecv, TopicMailSend);
    StartWithOneService(NewDaemon(interval, endpoint, r), net);
  }

  /** Start on a stopped daemon whose only service and only subscriber are
      the mail_recv ones. */
  lemma StartWithOneService(d: Daemon, net: Network)
    requires !d.running && !d.timerArmed
    requires d.services.Keys == {d.endpoint + TopicMailRecv} && d.services[d.endpoint + TopicMailRecv].holdsStrings
    requires d.endpoint + TopicMailRecv in d.subscribers && d.subscribers[d.endpoint + TopicMailRecv].Some?
    requires d.endpoint + TopicTaskRecv !in d.subscribers && d.endpoint + TopicMailSend !in d.subscribers
    ensures var mr := d.endpoint + TopicMailRecv;
      Enumerates([mr], d.services) &&
      var res := Start(d, [mr], net);
      res.Ok? ==>
        && res.value.subscribers[mr].Some?
        && res.value.subscribers[mr].value.running
        && res.value.subscribers[d.endpoint + TopicTaskRecv] == None
        && res.value.subscribers[d.endpoint + TopicMailSend] == None
        && res.value.services[mr].worker == Some(AtLoopHead)
        && (res.value.timerArmed <==> d.mailEnabled)
  {
    var mr := d.endpoint + TopicMailRecv;
    assert Enumerates([mr], d.services);
    var d0 := d.(running := true);
    PublisherStage(d0, net);
    var rp := StartPublishers(d0, [mr], net);
    if rp.Ok? {
      var d1 := rp.value;
      SubscriberStages(d1, net);
      var rs := Then(Then(StartSubscriber(d1, TopicMailRecv, net), TopicTaskRecv, net), TopicMailSend, net);
      if rs.Ok? {
        assert rs.value.services == d1.services;
        assert Start(d, [mr], net) == Ok(rs.value.(timerArmed := rs.value.timerArmed || rs.value.mailEnabled));
      }
    }
  }

  lemma SuffixesDistinct(e: string, a: string, b: string)
    requires a != b && |a| == |b|
    ensures e + a != e + b
  {
    assert (e + a)[|e|..] == a && (e + b)[|e|..] == b;
  }

  /** Daemon::stop: a no-op when not running; otherwise clears the flag and
      nothing else (no worker is notified, no subscriber stopped). */
  function Stop(d: Daemon): (d': Daemon)
    ensures !d'.running
    ensures d' == d.(running := false)
  {
    if !d.running then d else d.(running := false)
  }

  /** Daemon::publish: push onto the queue of the service keyed endpoint +
      topic. The service must exist and hold strings: a missing key, or a
      service of another message type, makes the dynamic_cast give a null
      pointer that is then dereferenced. */
  function Publish(d: Daemon, msg: string, topic: string): (d': Daemon)
    requires d.endpoint + topic in d.services && d.services[d.endpoint + topic].holdsStrings
    ensures d'.services.Keys == d.services.Keys
    ensures d'.services[d.endpoint + topic].queue == d.services[d.endpoint + topic].queue + [msg]
    ensures forall k :: k in d.services && k != d.endpoint + topic ==> d'.services[k] == d.services[k]
    ensures d' == d.(services := d'.services)
  {
    var key := d.endpoint + topic;
    d.(services := d.services[key := Enqueue(d.services[key], msg)])
  }

  /** Daemon::publishMail: the same push, on the mail_recv queue. */
  function PublishMail(d: Daemon, dir: string): (d': Daemon)
    requires d.endpoint + TopicMailRecv in d.services && d.services[d.endpoint + TopicMailRecv].holdsStrings
    ensures d'.services.Keys == d.services.Keys
    ensures d'.services[d.endpoint + TopicMailRecv].queue == d.services[d.endpoint + TopicMailRecv].queue + [dir]
    ensures forall k :: k in d.services && k != d.endpoint + TopicMailRecv ==> d'.services[k] == d.services[k]
    ensures d' == d.(services := d'.services)
  {
    Publish(d, dir, TopicMailRecv)
  }

  /** The outcome of one account's fetch: the output directory ("" for none)
      and the error message, if any. */
  datatype Fetched = Fetched(dir: string, error: Option<string>)

  /** The timer callback of startMailService: accounts in configuration order,
      each result directory published unless it is empty; an error is only
      reported. */
  function Poll(d: Daemon, results: seq<Fetched>): (d': Daemon)
    requires d.endpoint + TopicMailRecv in d.services && d.services[d.endpoint + TopicMailRecv].holdsStrings
    ensures d'.services.Keys == d.services.Keys
    ensures d' == d.(services := d'.services)
    ensures forall k :: k in d.services && k != d.endpoint + TopicMailRecv ==> d'.services[k] == d.services[k]
    decreases |results|
  {
    if results == [] then d
    else
      var d1 := if results[0].dir == "" then d else PublishMail(d, results[0].dir);
      Poll(d1, results[1..])
  }

  /** Reference: the non-empty directories, in order. */
  function NonEmptyDirs(results: seq<Fetched>): seq<string> {
    if results == [] then []
    else if results[0].dir == "" then NonEmptyDirs(results[1..])
    else [results[0].dir] + NonEmptyDirs(results[1..])
  }

  /** A poll appends exactly the non-empty result directories, in account
      order, to the mail_recv queue, whether or not their fetch reported an
      error. */
  lemma {:induction false} PollQueuesNonEmptyDirs(d: Daemon, results: seq<Fetched>)
    requires d.endpoint + TopicMailRecv in d.services && d.services[d.endpoint + TopicMailRecv].holdsStrings
    ensures Poll(d, results).services[d.endpoint + TopicMailRecv].queue ==
      d.services[d.endpoint + TopicMailRecv].queue + NonEmptyDirs(results)
    decreases |results|
  {
    if results != [] {
      var d1 := if results[0].dir == "" then d else PublishMail(d, results[0].dir);
      PollQueuesNonEmptyDirs(d1, results[1..]);
    }
  }

  /** What the poll sees of one account's getByFilter: the directory and
      the error's message. */
  function FetchedOf(r: (string, Option<Mail.MailError>)): (f: Fetched)
    ensures f.dir == r.0
    ensures f.error.Some? <==> r.1.Some?
    ensures r.1.Some? ==> f.error.value == r.1.value.message
  {
    Fetched(r.0, if r.1.Some? then Some(r.1.value.message) else None)
  }

  /** One poll's results: each account's session, with the time-stamped
      directory name it was given. */
  function FetchAll(workDir: string, runs: seq<(string, Mail.Session)>): (rs: seq<Fetched>)
    ensures |rs| == |runs|
    ensures forall i :: 0 <= i < |runs| ==> rs[i] == FetchedOf(Mail.GetByFilter(workDir, runs[i].0, runs[i].1))
  {
    if runs == [] then []
    else [FetchedOf(Mail.GetByFilter(workDir, runs[0].0, runs[0].1))] + FetchAll(workDir, runs[1..])
  }

  /** Reference: the work directories of the sessions that reached the
      mailbox, in account order. */
  function ReachedDirs(workDir: string, runs: seq<(string, Mail.Session)>): seq<string> {
    if runs == [] then []
    else if Mail.ReachedMailbox(runs[0].1) then [Mail.PathJoin(workDir, runs[0].0)] + ReachedDirs(workDir, runs[1..])
    else ReachedDirs(workDir, runs[1..])
  }

  lemma {:induction false} NonEmptyDirsAreReached(workDir: string, runs: seq<(string, Mail.Session)>)
    requires forall i :: 0 <= i < |runs| ==> runs[i].0 != []
    ensures NonEmptyDirs(FetchAll(workDir, runs)) == ReachedDirs(workDir, runs)
    decreases |runs|
  {
    if runs != [] {
      Mail.ResultDirNonEmpty(workDir, runs[0].0, runs[0].1);
      NonEmptyDirsAreReached(workDir, runs[1..]);
      assert FetchAll(workDir, runs)[1..] == FetchAll(workDir, runs[1..]);
    }
  }

  /** End to end, the mail timer's callback: every account whose session got
      as far as the mailbox has its work directory queued for mail_recv, in
      account order, even when fetching then failed; accounts that could not
      connect or log in, or had no new mail, queue nothing. */
  lemma PollQueuesReachedMailboxes(d: Daemon, workDir: string, runs: seq<(string, Mail.Session)>)
    requires d.endpoint + TopicMailRecv in d.services && d.services[d.endpoint + TopicMailRecv].holdsStrings
    requires forall i :: 0 <= i < |runs| ==> runs[i].0 != []
    ensures Poll(d, FetchAll(workDir, runs)).services[d.endpoint + TopicMailRecv].queue ==
      d.services[d.endpoint + TopicMailRecv].queue + ReachedDirs(workDir, runs)
  {
    PollQueuesNonEmptyDirs(d, FetchAll(workDir, runs));
    NonEmptyDirsAreReached(workDir, runs);
  }

  /** A MailTo message once decoded; the protobuf wire format is not modelled. */
  datatype MailTo = MailTo(subject: string, fields: string)

  /** What a subscriber callback does with a payload. */
  datatype Action = ProcessMail(dir: string) | ProcessTask(file: string) | SendMail(info: MailTo) | Dropped

  /** The callbacks startSubscribeService installs, by topic. A mail_send
      payload that does not decode as MailTo is dropped. */
  function Route(topic: string, payload: string, decode: string -> Option<MailTo>): (a: Action)
    ensures topic == TopicMailRecv ==> a == ProcessMail(payload)
    ensures topic == TopicTaskRecv ==> a == ProcessTask(payload)
    ensures topic == TopicMailSend ==> (a.SendMail? <==> decode(payload).Some?)
    ensures a.SendMail? ==> decode(payload) == Some(a.info)
  {
    if topic == TopicMailRecv then ProcessMail(payload)
    else if topic == TopicTaskRecv then ProcessTask(payload)
    else if topic == TopicMailSend then
      match decode(payload)
      case None => Dropped
      case Some(m) => SendMail(m)
    else Dropped
  }

  /** End to end: directories queued on mail_recv, drained by the running
      worker and delivered to the mail_recv subscriber, reach processMail in
      queue order. */
  lemma MailRecvEndToEnd(r: Registry, svc: Service, sub: Subscriber, decode: string -> Option<MailTo>)
    requires svc.worker == Some(AtLoopHead) && svc.publisher.role == PublisherRole
    requires svc.publisher.socket.Socket? && svc.publisher.topic == TopicMailRecv
    requires sub.ipc.socket.Socket? && !sub.joinable && sub.ipc.topic == TopicMailRecv
    ensures var sent := Play(true, svc, Steps(2 * |svc.queue|)).1.published[|svc.published|..];
      var got := Deliveries(r, Subscribe(sub), PublishAll(r, svc.publisher, sent));
      |got| == |svc.queue| &&
      forall i :: 0 <= i < |got| ==> Route(TopicMailRecv, got[i], decode) == ProcessMail(svc.queue[i])
  {
    RunningWorkerDrains(svc);
    var s' := Play(true, svc, Steps(2 * |svc.queue|)).1;
    assert s'.published[|svc.published|..] == svc.queue;
    PublishSubscribeRoundTrip(r, svc.publisher, sub, svc.queue);
  }
}
