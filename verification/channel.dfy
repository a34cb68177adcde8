/** The two concrete IPC objects, Publisher<Msg> and Subscriber<Msg>
    (include/publisher.h, include/subscriber.h). A message on the wire is two
    frames, the topic then the payload; payloads are carried as strings, which
    is the only instantiation the daemon uses. The subscriber's receive thread
    is modelled one received message at a time. */
module Channel {
  import opened Common
  import opened Ipc

  /** A two-frame zmq message. */
  datatype Frames = Frames(topic: string, payload: string)

  /** The port lock held while a socket is used. */
  datatype LockMode = Unlocked | Exclusive(port: string) | Shared(port: string)

  /** A message handed to a socket, with the lock held while sending it. */
  datatype Sent = Sent(socket: Socket, lock: LockMode, frames: Frames)

  /** Publisher::Publisher */
  function NewPublisher(endpoint: string, topic: string): Ipc {
    NewIpc(endpoint, topic, PublisherRole)
  }

  /** Publisher::publish: topic frame then payload frame, under the port's
      exclusive lock when one exists and without any lock otherwise. The
      handle is dereferenced, so the publisher must be connected. */
  function Publish(r: Registry, p: Ipc, payload: string): (s: Sent)
    requires p.role == PublisherRole && p.socket.Socket?
    ensures s.socket == p.socket
    ensures s.frames == Frames(p.topic, payload)
    ensures s.lock.Exclusive? <==> HasMutex(r, p.endpoint)
    ensures s.lock.Exclusive? ==> s.lock.port == GetPort(p.endpoint)
    ensures !s.lock.Shared?
  {
    if !HasMutex(r, p.endpoint) then Sent(p.socket, Unlocked, Frames(p.topic, payload))
    else Sent(p.socket, Exclusive(GetPort(p.endpoint)), Frames(p.topic, payload))
  }

  /** Publisher::publish applied to a list of payloads, in order. */
  function PublishAll(r: Registry, p: Ipc, payloads: seq<string>): (w: seq<Frames>)
    requires p.role == PublisherRole && p.socket.Socket?
    ensures |w| == |payloads|
    ensures forall i :: 0 <= i < |w| ==> w[i] == Frames(p.topic, payloads[i])
  {
    if payloads == [] then []
    else [Publish(r, p, payloads[0]).frames] + PublishAll(r, p, payloads[1..])
  }

  /** A subscriber: its IPC part, the running flag, the prefixes its socket is
      subscribed to, whether a callback is installed and whether its receive
      thread is joinable. */
  datatype Subscriber = Subscriber(
    ipc: Ipc,
    running: bool,
    filters: seq<string>,
    hasCallback: bool,
    joinable: bool)

  /** Subscriber::Subscriber */
  function NewSubscriber(endpoint: string, topic: string): (s: Subscriber)
    ensures !s.running && !s.joinable && !s.hasCallback && s.filters == []
  {
    Subscriber(NewIpc(endpoint, topic, SubscriberRole), false, [], false, false)
  }

  /** Subscriber::subscribe: subscribe the socket to the topic, set running,
      install the callback and start the receive thread. The handle is
      dereferenced (so the subscriber must be connected) and assigning a new
      thread over a joinable one terminates the process. */
  function Subscribe(s: Subscriber): (s': Subscriber)
    requires s.ipc.socket.Socket? && !s.joinable
    ensures s'.running && s'.hasCallback && s'.joinable
    ensures s'.ipc == s.ipc
    ensures s'.filters == s.filters + [s.ipc.topic]
  {
    s.(filters := s.filters + [s.ipc.topic], running := true, hasCallback := true, joinable := true)
  }

  /** Subscriber::stop (also the destructor): clear running and join the
      thread if there is one. */
  function Stop(s: Subscriber): (s': Subscriber)
    ensures !s'.running && !s'.joinable
    ensures s'.ipc == s.ipc && s'.filters == s.filters && s'.hasCallback == s.hasCallback
  {
    s.(running := false, joinable := false)
  }

  /** zmq's subscription filter: a message reaches the socket when one of the
      subscribed prefixes is a prefix of its topic frame. */
  predicate Admitted(filters: seq<string>, topic: string) {
    exists i :: 0 <= i < |filters| && IsPrefix(filters[i], topic)
  }

  /** One iteration of the receive thread with a message ready: read it under
      the port's shared lock when one exists, and hand the payload to the
      callback only when the topic frame equals the subscriber's own topic. */
  function Receive(r: Registry, s: Subscriber, f: Frames): (res: (Option<string>, LockMode))
    requires s.running && Admitted(s.filters, f.topic)
    ensures res.0.Some? <==> f.topic == s.ipc.topic && s.hasCallback
    ensures res.0.Some? ==> res.0.value == f.payload
    ensures res.1.Shared? <==> HasMutex(r, s.ipc.endpoint)
    ensures !res.1.Exclusive?
  {
    var lock := if HasMutex(r, s.ipc.endpoint) then Shared(GetPort(s.ipc.endpoint)) else Unlocked;
    if f.topic == s.ipc.topic && s.hasCallback then (Some(f.payload), lock) else (None, lock)
  }

  /** What the callback sees while the subscriber runs and the wire carries
      `wire`: the messages its socket admits, read one at a time. */
  function Deliveries(r: Registry, s: Subscriber, wire: seq<Frames>): (d: seq<string>)
    requires s.running
    ensures |d| <= |wire|
    decreases |wire|
  {
    if wire == [] then []
    else
      var rest := Deliveries(r, s, wire[1..]);
      if !Admitted(s.filters, wire[0].topic) then rest
      else match Receive(r, s, wire[0]).0
        case Some(p) => [p] + rest
        case None => rest
  }

  /** Reference: the payloads of the messages on one topic, in order. */
  function PayloadsOn(wire: seq<Frames>, topic: string): seq<string> {
    if wire == [] then []
    else if wire[0].topic == topic then [wire[0].payload] + PayloadsOn(wire[1..], topic)
    else PayloadsOn(wire[1..], topic)
  }

  /** A running subscriber with its callback delivers exactly the payloads
      published on its own topic, in order; messages on longer topics that pass
      zmq's prefix filter are dropped by the topic check. */
  lemma {:induction false} DeliveriesAreOwnTopic(r: Registry, s: Subscriber, wire: seq<Frames>)
    requires s.running && s.hasCallback
    requires exists i :: 0 <= i < |s.filters| && s.filters[i] == s.ipc.topic
    ensures Deliveries(r, s, wire) == PayloadsOn(wire, s.ipc.topic)
    decreases |wire|
  {
    if wire != [] {
      DeliveriesAreOwnTopic(r, s, wire[1..]);
      if wire[0].topic == s.ipc.topic {
        var i :| 0 <= i < |s.filters| && s.filters[i] == s.ipc.topic;
        assert IsPrefix(s.filters[i], wire[0].topic);
      }
    }
  }

  /** Without a callback nothing is delivered. */
  lemma {:induction false} NoCallbackNoDeliveries(r: Registry, s: Subscriber, wire: seq<Frames>)
    requires s.running && !s.hasCallback
    ensures Deliveries(r, s, wire) == []
    decreases |wire|
  {
    if wire != [] { NoCallbackNoDeliveries(r, s, wire[1..]); }
  }

  lemma {:induction false} PayloadsOnSameTopic(w: seq<Frames>, topic: string, payloads: seq<string>)
    requires |w| == |payloads| && forall i :: 0 <= i < |w| ==> w[i] == Frames(topic, payloads[i])
    ensures PayloadsOn(w, topic) == payloads
    decreases |w|
  {
    if w != [] { PayloadsOnSameTopic(w[1..], topic, payloads[1..]); }
  }

  lemma {:induction false} PayloadsOnOtherTopic(w: seq<Frames>, topic: string, other: string)
    requires topic != other && forall i :: 0 <= i < |w| ==> w[i].topic == other
    ensures PayloadsOn(w, topic) == []
    decreases |w|
  {
    if w != [] { PayloadsOnOtherTopic(w[1..], topic, other); }
  }

  /** Round trip: what a connected publisher publishes on topic T, a subscriber
      that subscribed to T receives through its callback, all of it and in
      order; a subscriber to any other topic receives none of it. */
  lemma PublishSubscribeRoundTrip(r: Registry, p: Ipc, s: Subscriber, payloads: seq<string>)
    requires p.role == PublisherRole && p.socket.Socket?
    requires s.ipc.socket.Socket? && !s.joinable
    ensures s.ipc.topic == p.topic ==>
      Deliveries(r, Subscribe(s), PublishAll(r, p, payloads)) == payloads
    ensures s.ipc.topic != p.topic ==>
      Deliveries(r, Subscribe(s), PublishAll(r, p, payloads)) == []
  {
    var s' := Subscribe(s);
    var w := PublishAll(r, p, payloads);
    assert s'.filters[|s.filters|] == s.ipc.topic;
    DeliveriesAreOwnTopic(r, s', w);
    if s.ipc.topic == p.topic {
      PayloadsOnSameTopic(w, p.topic, payloads);
    } else {
      PayloadsOnOtherTopic(w, s.ipc.topic, p.topic);
    }
  }

  /** A message on topic T + suffix gets past zmq's filter for T, yet is not
      handed to T's callback. */
  lemma LongerTopicAdmittedButDropped(r: Registry, s: Subscriber, suffix: string, payload: string)
    requires s.running && suffix != []
    requires exists i :: 0 <= i < |s.filters| && s.filters[i] == s.ipc.topic
    ensures Admitted(s.filters, s.ipc.topic + suffix)
    ensures Receive(r, s, Frames(s.ipc.topic + suffix, payload)).0 == None
  {
    var i :| 0 <= i < |s.filters| && s.filters[i] == s.ipc.topic;
    assert (s.ipc.topic + suffix)[..|s.ipc.topic|] == s.ipc.topic;
    assert IsPrefix(s.filters[i], s.ipc.topic + suffix);
    assert |s.ipc.topic + suffix| != |s.ipc.topic|;
  }

  /** stop is idempotent, so the destructor after an explicit stop changes nothing. */
  lemma StopIdempotent(s: Subscriber)
    ensures Stop(Stop(s)) == Stop(s)
  {
  }
}
