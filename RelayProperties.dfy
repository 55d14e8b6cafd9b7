/** What the relay of retransmission.py guarantees, and what it does not,
    proved about the transitions of RelaySpec. */
module RelayProperties {
  import opened RelaySpec

  // ---------------------------------------------------------------------------
  // Initial state

  /** `__init__` starts with an empty queue of maxsize `buffer_size`, both
      links reported up, and nothing received, sent or evicted. */
  lemma InitialState<T>(bufferSize: int)
    ensures var s := Init<T>(bufferSize);
      s.buffer == [] && s.capacity == bufferSize &&
      s.link.toRover && s.link.toEarth &&
      s.listener == Listening && s.forwarder == Connecting &&
      Bounded(s) && Conserved(s)
  {
  }

  // ---------------------------------------------------------------------------
  // The receive path

  /** A decoded record goes to the tail; the head is dropped exactly when the
      queue was full; the listener marks the rover link up and leaves the
      earth link and the forwarder's state alone. */
  lemma ReceiveDecoded<T>(s: Relay<T>, t: T)
    requires s.listener == Listening
    ensures Full(s.buffer, s.capacity) ==>
      Receive(s, Decoded(t)) == s.(buffer := s.buffer[1..] + [t], evicted := s.evicted + [s.buffer[0]],
                                   received := s.received + [t], link := LinkStatus(true, s.link.toEarth))
    ensures !Full(s.buffer, s.capacity) ==>
      Receive(s, Decoded(t)) == s.(buffer := s.buffer + [t], received := s.received + [t],
                                   link := LinkStatus(true, s.link.toEarth))
  {
  }

  /** A socket or JSON error leaves the queue as it was and marks the rover
      link down; an uncaught exception ends the listener and changes nothing else. */
  lemma ReceiveFailure<T>(s: Relay<T>)
    requires s.listener == Listening
    ensures Receive(s, Rejected) == s.(link := LinkStatus(false, s.link.toEarth))
    ensures Receive(s, Uncaught) == s.(listener := Crashed)
  {
  }

  /** The last `n` of the last `n` of `q` followed by `r` are the last `n` of `q + r`. */
  lemma LastNAppend<T>(q: seq<T>, r: seq<T>, n: nat)
    ensures LastN(LastN(q, n) + r, n) == LastN(q + r, n)
  {
    if n < |q| {
      var k := |q| - n;
      assert LastN(q, n) + r == (q + r)[k..];
      assert (q + r)[k..][|r|..] == (q + r)[k + |r|..];
    }
  }

  /** One decoded record keeps the last `capacity` of the queue followed by it. */
  lemma ReceiveKeepsNewest<T>(s: Relay<T>, t: T)
    requires s.listener == Listening && 0 < s.capacity && |s.buffer| <= s.capacity
    ensures Receive(s, Decoded(t)).buffer == LastN(s.buffer + [t], s.capacity)
  {
    if Full(s.buffer, s.capacity) {
      assert (s.buffer + [t])[1..] == s.buffer[1..] + [t];
    }
  }

  /** Appending the head of `xs` and then its tail is appending `xs`. */
  lemma AppendHead<T>(q: seq<T>, xs: seq<T>)
    requires xs != []
    ensures q + [xs[0]] + xs[1..] == q + xs
  {
    assert xs == [xs[0]] + xs[1..];
  }

  /** Running a non-empty interleaving is one step followed by the rest. */
  lemma RunCons<T>(s: Relay<T>, e: Event<T>, rest: seq<Event<T>>)
    ensures Run(s, [e] + rest) == Run(Step(s, e), rest)
  {
    assert ([e] + rest)[0] == e && ([e] + rest)[1..] == rest;
  }

  /** Receiving a stream of records with no dequeues keeps exactly the last
      `capacity` of everything queued, in arrival order, and leaves the
      forwarder's side alone. */
  lemma {:induction false} ReceiveAllKeepsNewest<T>(s: Relay<T>, xs: seq<T>)
    requires s.listener == Listening && 0 < s.capacity && |s.buffer| <= s.capacity
    ensures Run(s, Arrivals(xs)).buffer == LastN(s.buffer + xs, s.capacity)
    ensures Run(s, Arrivals(xs)).received == s.received + xs
    ensures Run(s, Arrivals(xs)).listener == Listening
    ensures Run(s, Arrivals(xs)).forwarder == s.forwarder && Run(s, Arrivals(xs)).sent == s.sent
    ensures Run(s, Arrivals(xs)).link.toEarth == s.link.toEarth
    decreases |xs|
  {
    ListenerOnlyTouchesItsOwn(s, Arrivals(xs));
    if xs == [] {
      assert Run(s, Arrivals(xs)) == s;
      assert s.buffer + xs == s.buffer;
      assert s.received + xs == s.received;
    } else {
      var s' := Receive(s, Decoded(xs[0]));
      assert Arrivals(xs) == [Arrive(Decoded(xs[0]))] + Arrivals(xs[1..]);
      RunCons(s, Arrive(Decoded(xs[0])), Arrivals(xs[1..]));
      ReceiveKeepsNewest(s, xs[0]);
      assert s'.listener == Listening && s'.capacity == s.capacity && |s'.buffer| <= s.capacity;
      ReceiveAllKeepsNewest(s', xs[1..]);
      LastNAppend(s.buffer + [xs[0]], xs[1..], s.capacity);
      AppendHead(s.buffer, xs);
      AppendHead(s.received, xs);
    }
  }

  /** More records than the capacity received into a fresh relay leave exactly
      the last `capacity` of them. */
  lemma FreshRelayKeepsLastRecords<T>(capacity: nat, xs: seq<T>)
    requires 0 < capacity < |xs|
    ensures Run(Init<T>(capacity), Arrivals(xs)).buffer == xs[|xs| - capacity..]
  {
    ReceiveAllKeepsNewest(Init<T>(capacity), xs);
    assert [] + xs == xs;
  }

  /** Capacity 3, records A, B, C, D: the queue holds [B, C, D], and once the
      forwarder has connected the first record it sends is B. */
  lemma CapacityThreeScenario<T>(a: T, b: T, c: T, d: T)
    ensures Run(Init<T>(3), Arrivals([a, b, c, d])).buffer == [b, c, d]
    ensures Run(Init<T>(3), Arrivals([a, b, c, d]) + [ConnectAttempt(true), SendAttempt(true)]).sent == [b]
  {
    var s := Run(Init<T>(3), Arrivals([a, b, c, d]));
    FreshRelayKeepsLastRecords(3, [a, b, c, d]);
    assert [a, b, c, d][1..] == [b, c, d];
    ReceiveAllKeepsNewest(Init<T>(3), [a, b, c, d]);
    RunAppend(Init<T>(3), Arrivals([a, b, c, d]), [ConnectAttempt(true), SendAttempt(true)]);
  }

  // ---------------------------------------------------------------------------
  // The forward path

  /** On an empty queue the forwarder idles: nothing changes. */
  lemma ForwardIdle<T>(s: Relay<T>, sendOk: bool)
    requires s.forwarder == Forwarding && s.buffer == []
    ensures Forward(s, sendOk) == s
  {
  }

  /** A successful send removes exactly the head, logs it as sent and marks
      the earth link up; the rover link is untouched. */
  lemma ForwardSuccess<T>(s: Relay<T>)
    requires s.forwarder == Forwarding && s.buffer != []
    ensures var r := Forward(s, true);
      [s.buffer[0]] + r.buffer == s.buffer &&
      r == s.(buffer := s.buffer[1..], sent := s.sent + [s.buffer[0]], link := LinkStatus(s.link.toRover, true))
  {
  }

  /** A failed send marks the earth link down and puts the head back at the
      TAIL: the queue is rotated by one, its length and contents as a multiset
      are unchanged, nothing is logged as sent, and the connection is kept
      (the forwarder stays in its loop and never reconnects). */
  lemma ForwardFailure<T>(s: Relay<T>)
    requires s.forwarder == Forwarding && s.buffer != []
    ensures var r := Forward(s, false);
      r == s.(buffer := s.buffer[1..] + [s.buffer[0]], link := LinkStatus(s.link.toRover, false)) &&
      |r.buffer| == |s.buffer| && multiset(r.buffer) == multiset(s.buffer)
  {
    assert s.buffer == [s.buffer[0]] + s.buffer[1..];
  }

  /** A record whose send fails once and then succeeds is delivered exactly
      once, and the earth link goes down and then up again. */
  lemma RetryDeliversOnce<T>(s: Relay<T>, x: T)
    requires s.forwarder == Forwarding && s.buffer == [x]
    ensures !Step(s, SendAttempt(false)).link.toEarth
    ensures var r := Run(s, [SendAttempt(false), SendAttempt(true)]);
      r.sent == s.sent + [x] && r.buffer == [] && r.link.toEarth
  {
    var s1 := Step(s, SendAttempt(false));
    assert s1.buffer == [x];
    var events: seq<Event<T>> := [SendAttempt(false), SendAttempt(true)];
    assert events[1..] == [SendAttempt(true)];
  }

  /** As written, a requeued record goes behind the records already queued:
      after one failure on `x`, the next successful send delivers the newer `y`. */
  lemma RequeueLetsNewerOvertake<T>(s: Relay<T>, x: T, y: T)
    requires s.forwarder == Forwarding && s.buffer == [x, y]
    ensures var r := Run(s, [SendAttempt(false), SendAttempt(true)]);
      r.sent == s.sent + [y] && r.buffer == [x]
  {
    var s1 := Step(s, SendAttempt(false));
    assert s1.buffer == [y, x];
    var events: seq<Event<T>> := [SendAttempt(false), SendAttempt(true)];
    assert events[1..] == [SendAttempt(true)];
  }

  /** A failed connect sets the earth link down and leaves the queue alone. */
  lemma ConnectFailure<T>(s: Relay<T>)
    requires s.forwarder == Connecting
    ensures Connect(s, false) == s.(forwarder := GaveUp, link := LinkStatus(s.link.toRover, false))
  {
  }

  // ---------------------------------------------------------------------------
  // Each worker owns its own flag

  /** The events of the listener alone. */
  function ListenerEvents<T>(events: seq<Event<T>>): (r: seq<Event<T>>)
    ensures forall e :: e in r ==> e.Arrive?
    ensures |r| <= |events|
  {
    if events == [] then []
    else if events[0].Arrive? then [events[0]] + ListenerEvents(events[1..])
    else ListenerEvents(events[1..])
  }

  /** The events of the forwarder alone. */
  function ForwarderEvents<T>(events: seq<Event<T>>): (r: seq<Event<T>>)
    ensures forall e :: e in r ==> !e.Arrive?
    ensures |r| <= |events|
  {
    if events == [] then []
    else if !events[0].Arrive? then [events[0]] + ForwarderEvents(events[1..])
    else ForwarderEvents(events[1..])
  }

  /** A single step never writes the other worker's flag: the listener writes
      only `to_rover` (and the queue and the received log), the forwarder only
      `to_earth` (and the queue and the sent log). */
  lemma StepOwnership<T>(s: Relay<T>, e: Event<T>)
    ensures e.Arrive? ==> var r := Step(s, e);
      r.link.toEarth == s.link.toEarth && r.forwarder == s.forwarder && r.sent == s.sent
    ensures !e.Arrive? ==> var r := Step(s, e);
      r.link.toRover == s.link.toRover && r.listener == s.listener && r.received == s.received
  {
  }

  /** Events of the listener alone never change what belongs to the forwarder. */
  lemma {:induction false} ListenerOnlyTouchesItsOwn<T>(s: Relay<T>, events: seq<Event<T>>)
    requires forall e :: e in events ==> e.Arrive?
    ensures var r := Run(s, events);
      r.link.toEarth == s.link.toEarth && r.forwarder == s.forwarder && r.sent == s.sent
    decreases |events|
  {
    if events != [] {
      assert events[0] in events;
      assert forall e :: e in events[1..] ==> e in events;
      ListenerOnlyTouchesItsOwn(Step(s, events[0]), events[1..]);
    }
  }

  /** Running `a` then `b` is running `a + b`. */
  lemma {:induction false} RunAppend<T>(s: Relay<T>, a: seq<Event<T>>, b: seq<Event<T>>)
    ensures Run(s, a + b) == Run(Run(s, a), b)
    decreases |a|
  {
    if a == [] {
      assert a + b == b;
    } else {
      assert (a + b)[0] == a[0] && (a + b)[1..] == a[1..] + b;
      RunAppend(Step(s, a[0]), a[1..], b);
    }
  }

  /** After a failed connect the forwarder is gone: the relay evolves exactly
      as under the listener's events alone, so the forwarder never touches the
      queue again, nothing is ever sent, and the earth link stays as it was. */
  lemma {:induction false} GaveUpForwarderIsInert<T>(s: Relay<T>, events: seq<Event<T>>)
    requires s.forwarder == GaveUp
    ensures Run(s, events) == Run(s, ListenerEvents(events))
    ensures Run(s, events).forwarder == GaveUp
    ensures Run(s, events).sent == s.sent && Run(s, events).link.toEarth == s.link.toEarth
    decreases |events|
  {
    if events != [] {
      var s' := Step(s, events[0]);
      GaveUpForwarderIsInert(s', events[1..]);
      if events[0].Arrive? {
        assert ListenerEvents(events) == [events[0]] + ListenerEvents(events[1..]);
        assert ([events[0]] + ListenerEvents(events[1..]))[1..] == ListenerEvents(events[1..]);
      } else {
        assert s' == s;
      }
    }
  }

  /** After an uncaught exception ends the listener, nothing more is received:
      the relay evolves exactly as under the forwarder's events alone. */
  lemma {:induction false} CrashedListenerIsDeaf<T>(s: Relay<T>, events: seq<Event<T>>)
    requires s.listener == Crashed
    ensures Run(s, events) == Run(s, ForwarderEvents(events))
    ensures Run(s, events).listener == Crashed
    ensures Run(s, events).received == s.received && Run(s, events).link.toRover == s.link.toRover
    decreases |events|
  {
    if events != [] {
      var s' := Step(s, events[0]);
      CrashedListenerIsDeaf(s', events[1..]);
      if !events[0].Arrive? {
        assert ForwarderEvents(events) == [events[0]] + ForwarderEvents(events[1..]);
        assert ([events[0]] + ForwarderEvents(events[1..]))[1..] == ForwarderEvents(events[1..]);
      } else {
        assert s' == s;
      }
    }
  }

  // ---------------------------------------------------------------------------
  // Invariants of every interleaving

  /** One step keeps the queue within its maxsize. */
  lemma StepKeepsBound<T>(s: Relay<T>, e: Event<T>)
    requires Bounded(s)
    ensures Bounded(Step(s, e))
  {
  }

  /** Every interleaving keeps the queue within its maxsize. */
  lemma {:induction false} RunKeepsBound<T>(s: Relay<T>, events: seq<Event<T>>)
    requires Bounded(s)
    ensures Bounded(Run(s, events))
    decreases |events|
  {
    if events != [] {
      StepKeepsBound(s, events[0]);
      RunKeepsBound(Step(s, events[0]), events[1..]);
    }
  }

  /** One step neither invents nor loses a record, except by eviction. */
  lemma StepConserves<T>(s: Relay<T>, e: Event<T>)
    requires Conserved(s)
    ensures Conserved(Step(s, e))
  {
    if e.Arrive? && s.listener == Listening && e.arrival.Decoded? && Full(s.buffer, s.capacity) {
      EvictionConserves(s, e.arrival.record);
    } else if e.SendAttempt? && s.forwarder == Forwarding && s.buffer != [] {
      SplitHead(s.buffer);
    }
  }

  /** A queue is its head followed by the rest, also as a multiset. */
  lemma SplitHead<T>(q: seq<T>)
    requires q != []
    ensures multiset(q) == multiset{q[0]} + multiset(q[1..])
  {
    assert q == [q[0]] + q[1..];
  }

  /** Evicting the head and appending a new record keeps the accounting. */
  lemma EvictionConserves<T>(s: Relay<T>, t: T)
    requires Conserved(s) && s.listener == Listening && Full(s.buffer, s.capacity)
    ensures Conserved(Receive(s, Decoded(t)))
  {
    var r := Receive(s, Decoded(t));
    SplitHead(s.buffer);
    assert multiset(r.buffer) == multiset(s.buffer[1..]) + multiset{t};
    assert multiset(r.evicted) == multiset(s.evicted) + multiset{s.buffer[0]};
    assert multiset(r.received) == multiset(s.received) + multiset{t};
  }

  /** Every interleaving from a fresh relay keeps the queue bounded and
      accounts for every received record as queued, sent or evicted. */
  lemma {:induction false} RunInvariants<T>(s: Relay<T>, events: seq<Event<T>>)
    requires Bounded(s) && Conserved(s)
    ensures Bounded(Run(s, events)) && Conserved(Run(s, events))
    decreases |events|
  {
    if events != [] {
      StepKeepsBound(s, events[0]);
      StepConserves(s, events[0]);
      RunInvariants(Step(s, events[0]), events[1..]);
    }
  }

  // ---------------------------------------------------------------------------
  // Delivery order

  /** `a` is a subsequence of `b`: `b` with some elements left out. */
  predicate IsSubseq<T(==)>(a: seq<T>, b: seq<T>)
    decreases |b|
  {
    if a == [] then true
    else if b == [] then false
    else (a[0] == b[0] && IsSubseq(a[1..], b[1..])) || IsSubseq(a, b[1..])
  }

  /** Appending the same element to both keeps a subsequence. */
  lemma {:induction false} SubseqSnoc<T>(a: seq<T>, b: seq<T>, x: T)
    requires IsSubseq(a, b)
    ensures IsSubseq(a + [x], b + [x])
    decreases |b|
  {
    if a == [] {
      if b != [] {
        SubseqSnoc(a, b[1..], x);
        assert (b + [x])[1..] == b[1..] + [x];
      }
    } else {
      assert (a + [x])[0] == a[0] && (a + [x])[1..] == a[1..] + [x];
      assert (b + [x])[0] == b[0] && (b + [x])[1..] == b[1..] + [x];
      if a[0] == b[0] && IsSubseq(a[1..], b[1..]) {
        SubseqSnoc(a[1..], b[1..], x);
      } else {
        SubseqSnoc(a, b[1..], x);
      }
    }
  }

  /** Leaving one more element out of a subsequence keeps it a subsequence. */
  lemma {:induction false} SubseqRemove<T>(a: seq<T>, b: seq<T>, k: nat)
    requires IsSubseq(a, b) && k < |a|
    ensures IsSubseq(a[..k] + a[k + 1..], b)
    decreases |b|
  {
    var a' := a[..k] + a[k + 1..];
    if a[0] == b[0] && IsSubseq(a[1..], b[1..]) {
      if k == 0 {
        assert a' == a[1..];
      } else {
        SubseqRemove(a[1..], b[1..], k - 1);
        assert a'[0] == a[0] && a'[1..] == a[1..][..k - 1] + a[1..][k..];
      }
    } else {
      SubseqRemove(a, b[1..], k);
    }
  }

  /** What was sent followed by what is queued appears in the order it was received. */
  ghost predicate InArrivalOrder<T>(s: Relay<T>) {
    IsSubseq(s.sent + s.buffer, s.received)
  }

  /** A fresh relay has sent and queued nothing, so it is trivially in arrival order. */
  lemma InitInArrivalOrder<T>(bufferSize: int)
    ensures InArrivalOrder(Init<T>(bufferSize))
  {
  }

  /** A failed send that actually reorders: the forwarder is in its loop and
      at least two records are queued, so the head goes behind another one. */
  predicate Reorders<T>(s: Relay<T>, e: Event<T>) {
    e == SendAttempt(false) && s.forwarder == Forwarding && |s.buffer| >= 2
  }

  /** No event of the interleaving is a reordering failed send. */
  predicate NeverReorders<T>(s: Relay<T>, events: seq<Event<T>>)
    decreases |events|
  {
    events == [] || (!Reorders(s, events[0]) && NeverReorders(Step(s, events[0]), events[1..]))
  }

  /** Every step other than a failed send with two or more records queued
      keeps sent-then-queued records in arrival order; evictions only leave
      records out, and a failed send of a lone record puts it back where it was. */
  lemma StepKeepsOrder<T>(s: Relay<T>, e: Event<T>)
    requires InArrivalOrder(s) && !Reorders(s, e)
    ensures InArrivalOrder(Step(s, e))
  {
    var r := Step(s, e);
    if e.Arrive? && s.listener == Listening && e.arrival.Decoded? {
      var t := e.arrival.record;
      if Full(s.buffer, s.capacity) {
        SubseqRemove(s.sent + s.buffer, s.received, |s.sent|);
        assert (s.sent + s.buffer)[..|s.sent|] + (s.sent + s.buffer)[|s.sent| + 1..] == s.sent + s.buffer[1..];
        SubseqSnoc(s.sent + s.buffer[1..], s.received, t);
        assert s.sent + s.buffer[1..] + [t] == r.sent + r.buffer;
      } else {
        SubseqSnoc(s.sent + s.buffer, s.received, t);
        assert s.sent + s.buffer + [t] == r.sent + r.buffer;
      }
    } else if e.SendAttempt? && s.forwarder == Forwarding && s.buffer != [] {
      if e.ok {
        assert r.sent + r.buffer == s.sent + [s.buffer[0]] + s.buffer[1..] == s.sent + s.buffer;
      } else {
        assert r.buffer == s.buffer;
      }
    }
  }

  /** As long as no failed send finds two or more records queued, records are
      sent in the order they were received (evicted ones skipped). */
  lemma {:induction false} RunWithoutReorderKeepsOrder<T>(s: Relay<T>, events: seq<Event<T>>)
    requires InArrivalOrder(s) && NeverReorders(s, events)
    ensures InArrivalOrder(Run(s, events))
    decreases |events|
  {
    if events != [] {
      StepKeepsOrder(s, events[0]);
      RunWithoutReorderKeepsOrder(Step(s, events[0]), events[1..]);
    }
  }

  /** In particular, as long as no send fails, records are sent in the order
      they were received (evicted ones skipped). */
  lemma {:induction false} RunWithoutFailureKeepsOrder<T>(s: Relay<T>, events: seq<Event<T>>)
    requires InArrivalOrder(s)
    requires forall i :: 0 <= i < |events| ==> events[i] != SendAttempt(false)
    ensures InArrivalOrder(Run(s, events))
  {
    NoFailureNeverReorders(s, events);
    RunWithoutReorderKeepsOrder(s, events);
  }

  /** An interleaving without failed sends has no reordering step. */
  lemma {:induction false} NoFailureNeverReorders<T>(s: Relay<T>, events: seq<Event<T>>)
    requires forall i :: 0 <= i < |events| ==> events[i] != SendAttempt(false)
    ensures NeverReorders(s, events)
    decreases |events|
  {
    if events != [] {
      assert events[0] != SendAttempt(false);
      NoFailureNeverReorders(Step(s, events[0]), events[1..]);
    }
  }

  /** One failed send is enough to break arrival order: with `x` received
      before `y` and both queued, the queue becomes [y, x]. */
  lemma FailedSendBreaksOrder<T>(s: Relay<T>, x: T, y: T)
    requires s.forwarder == Forwarding && x != y
    requires s.buffer == [x, y] && s.received == [x, y] && s.sent == []
    ensures InArrivalOrder(s)
    ensures !InArrivalOrder(Step(s, SendAttempt(false)))
  {
    var r := Step(s, SendAttempt(false));
    assert r.sent + r.buffer == [y, x];
    assert [x, y][1..] == [y] && [y, x][1..] == [x] && [y][1..] == [];
    assert !IsSubseq([y, x], [y]);
    assert !IsSubseq([y, x], [x, y]);
    assert [x, y][1..][1..] == [];
    assert IsSubseq([y], [y]);
  }
}
