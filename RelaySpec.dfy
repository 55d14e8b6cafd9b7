/** The rover-to-earth telemetry relay of retransmission.py as a sequential
    state machine over values.  Each transition is one iteration of one of the
    two worker loops (receive_telemetry, retransmit_telemetry) or the single
    connect attempt that starts the forwarder; the class in Retransmission.dfy
    is proved to follow these transitions step by step.

    Telemetry records are opaque (type parameter T): the JSON codec is a
    library and only its success or failure matters here. */
module RelaySpec {

  /** The outcome of one `recvfrom` followed by `json.loads`. */
  datatype Arrival<T> =
    | Decoded(record: T)  // a datagram that decoded to a telemetry value
    | Rejected            // socket.error or JSONDecodeError: caught by the listener
    | Uncaught            // any other exception (a payload that is not UTF-8): escapes the loop

  /** The receive thread either keeps listening or has ended on an uncaught exception. */
  datatype ListenerPhase = Listening | Crashed

  /** The retransmit thread first connects; its loop runs only after a
      successful connect, and a failed connect ends the thread. */
  datatype ForwarderPhase = Connecting | Forwarding | GaveUp

  /** The `link_status` dictionary. */
  datatype LinkStatus = LinkStatus(toRover: bool, toEarth: bool)

  /** The whole relay.  `received` and `sent` are the "Received telemetry" and
      "Sent telemetry" lines of the log file; `evicted` lists the records
      discarded by drop-oldest, which the source does not log. */
  datatype Relay<T> = Relay(
    buffer: seq<T>,
    capacity: int,
    link: LinkStatus,
    listener: ListenerPhase,
    forwarder: ForwarderPhase,
    received: seq<T>,
    sent: seq<T>,
    evicted: seq<T>)

  /** The default `buffer_size` of `__init__`. */
  const DefaultBufferSize: int := 500

  /** `Queue.full()`: a queue built with maxsize <= 0 is unbounded and never
      full.  A full queue is never empty, so the `get` that discards the
      oldest record always finds one. */
  predicate Full<T>(buffer: seq<T>, capacity: int)
    ensures Full(buffer, capacity) ==> buffer != []
    ensures capacity <= 0 ==> !Full(buffer, capacity)
  {
    0 < capacity <= |buffer|
  }

  /** The state `__init__` builds: an empty queue of the given maxsize and both links up. */
  function Init<T>(bufferSize: int): (s: Relay<T>)
    ensures Bounded(s) && Conserved(s)
    ensures s.buffer == [] && s.link == LinkStatus(true, true)
  {
    Relay([], bufferSize, LinkStatus(true, true), Listening, Connecting, [], [], [])
  }

  /** One iteration of the receive loop. */
  function Receive<T>(s: Relay<T>, a: Arrival<T>): (r: Relay<T>)
    requires s.listener == Listening
    ensures Bounded(s) ==> Bounded(r)
    ensures r.capacity == s.capacity && r.link.toEarth == s.link.toEarth
    ensures r.forwarder == s.forwarder && r.sent == s.sent
    ensures r.received == if a.Decoded? then s.received + [a.record] else s.received
  {
    match a
    case Decoded(t) =>
      if Full(s.buffer, s.capacity) then
        s.(buffer := s.buffer[1..] + [t], evicted := s.evicted + [s.buffer[0]],
           received := s.received + [t], link := s.link.(toRover := true))
      else
        s.(buffer := s.buffer + [t], received := s.received + [t], link := s.link.(toRover := true))
    case Rejected =>
      s.(link := s.link.(toRover := false))
    case Uncaught =>
      s.(listener := Crashed)
  }

  /** The one connect attempt at the start of the retransmit thread. */
  function Connect<T>(s: Relay<T>, ok: bool): (r: Relay<T>)
    requires s.forwarder == Connecting
    ensures r.buffer == s.buffer && r.capacity == s.capacity
    ensures r.received == s.received && r.sent == s.sent && r.evicted == s.evicted
    ensures r.link.toRover == s.link.toRover && r.listener == s.listener
    ensures r.link.toEarth <==> ok && s.link.toEarth
    ensures r.forwarder != Connecting
  {
    if ok then s.(forwarder := Forwarding)
    else s.(forwarder := GaveUp, link := s.link.(toEarth := false))
  }

  /** One iteration of the retransmit loop: idle on an empty queue; otherwise
      dequeue the head and send it, and on failure put it back at the tail. */
  function Forward<T>(s: Relay<T>, sendOk: bool): (r: Relay<T>)
    requires s.forwarder == Forwarding
    ensures |r.buffer| <= |s.buffer| && |s.buffer| <= |r.buffer| + 1
    ensures r.sent == s.sent + s.buffer[..|s.buffer| - |r.buffer|]
    ensures r.link.toRover == s.link.toRover && r.listener == s.listener
    ensures r.received == s.received && r.evicted == s.evicted && r.forwarder == Forwarding
    ensures s.buffer != [] ==> (r.link.toEarth <==> sendOk)
  {
    if |s.buffer| == 0 then s
    else if sendOk then
      s.(buffer := s.buffer[1..], sent := s.sent + [s.buffer[0]], link := s.link.(toEarth := true))
    else
      s.(buffer := s.buffer[1..] + [s.buffer[0]], link := s.link.(toEarth := false))
  }

  /** Something that can happen to the relay: one loop iteration of either worker. */
  datatype Event<T> =
    | Arrive(arrival: Arrival<T>)
    | ConnectAttempt(ok: bool)
    | SendAttempt(ok: bool)

  /** An event whose worker is not at that point (the listener has ended, the
      forwarder is not connecting, or is not in its loop) has no effect. */
  function Step<T>(s: Relay<T>, e: Event<T>): Relay<T> {
    match e
    case Arrive(a) => if s.listener == Listening then Receive(s, a) else s
    case ConnectAttempt(ok) => if s.forwarder == Connecting then Connect(s, ok) else s
    case SendAttempt(ok) => if s.forwarder == Forwarding then Forward(s, ok) else s
  }

  /** The state after an interleaving of events. */
  function Run<T>(s: Relay<T>, events: seq<Event<T>>): Relay<T>
    decreases |events|
  {
    if events == [] then s else Run(Step(s, events[0]), events[1..])
  }

  /** The events of a stream of datagrams that all decode. */
  function Arrivals<T>(xs: seq<T>): (events: seq<Event<T>>)
    ensures |events| == |xs|
    ensures forall e :: e in events ==> e.Arrive?
  {
    if xs == [] then [] else [Arrive(Decoded(xs[0]))] + Arrivals(xs[1..])
  }

  /** The queue never holds more than its maxsize. */
  ghost predicate Bounded<T>(s: Relay<T>) {
    0 < s.capacity ==> |s.buffer| <= s.capacity
  }

  /** Every record ever received is still queued, has been sent, or was evicted. */
  ghost predicate Conserved<T>(s: Relay<T>) {
    multiset(s.received) == multiset(s.buffer) + multiset(s.sent) + multiset(s.evicted)
  }

  /** The last `n` elements of `q` (all of them when there are fewer). */
  function LastN<T>(q: seq<T>, n: nat): (r: seq<T>)
    ensures |r| == if |q| <= n then |q| else n
    ensures q == q[..|q| - |r|] + r
  {
    if |q| <= n then q else q[|q| - n..]
  }
}
