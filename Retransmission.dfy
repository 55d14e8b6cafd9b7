/** The `TelemetryRetransmission` object of retransmission.py: its queue and
    link-status fields updated in place, one method per loop iteration of each
    worker, each proved to perform the matching transition of RelaySpec and to
    keep the queue bounded and every record accounted for. */
module Retransmission {
  import opened RelaySpec
  import RelayProperties

  class TelemetryRetransmission<T> {
    /** `buffer_size`, the maxsize of the queue (unbounded when not positive). */
    const bufferSize: int
    /** `telemetry_buffer`, oldest record first. */
    var telemetryBuffer: seq<T>
    /** The two entries of `link_status`. */
    var toRover: bool
    var toEarth: bool
    /** Where each worker thread is. */
    var listener: ListenerPhase
    var forwarder: ForwarderPhase
    /** The log file's "Received telemetry" and "Sent telemetry" entries, and
        the records discarded by drop-oldest. */
    ghost var received: seq<T>
    ghost var sent: seq<T>
    ghost var evicted: seq<T>

    /** The abstract value of the object. */
    ghost function State(): Relay<T>
      reads this
    {
      Relay(telemetryBuffer, bufferSize, LinkStatus(toRover, toEarth), listener, forwarder, received, sent, evicted)
    }

    ghost predicate Valid()
      reads this
    {
      Bounded(State()) && Conserved(State())
    }

    /** `__init__`, without the sockets and the logging setup. */
    constructor (bufferSize: int := DefaultBufferSize)
      ensures Valid() && State() == Init(bufferSize)
      ensures telemetryBuffer == [] && toRover && toEarth
    {
      this.bufferSize := bufferSize;
      telemetryBuffer := [];
      toRover, toEarth := true, true;
      listener, forwarder := Listening, Connecting;
      received, sent, evicted := [], [], [];
    }

    /** One iteration of `receive_telemetry`, given what `recvfrom` and
        `json.loads` produced. */
    method ReceiveTelemetry(arrival: Arrival<T>)
      requires Valid() && listener == Listening
      modifies this
      ensures Valid() && State() == Receive(old(State()), arrival)
    {
      ghost var before := State();
      match arrival {
        case Decoded(telemetry) =>
          if 0 < bufferSize <= |telemetryBuffer| {
            // the queue is full: discard the oldest record
            evicted := evicted + [telemetryBuffer[0]];
            telemetryBuffer := telemetryBuffer[1..];
          }
          telemetryBuffer := telemetryBuffer + [telemetry];
          received := received + [telemetry];
          toRover := true;
          assert State() == Receive(before, arrival);
        case Rejected =>
          toRover := false;
        case Uncaught =>
          listener := Crashed;
      }
      RelayProperties.StepKeepsBound(before, Arrive(arrival));
      RelayProperties.StepConserves(before, Arrive(arrival));
    }

    /** The `connect` at the start of `retransmit_telemetry`: on failure the
        thread reports the earth link down and ends. */
    method ConnectToEarth(ok: bool)
      requires Valid() && forwarder == Connecting
      modifies this
      ensures Valid() && State() == Connect(old(State()), ok)
    {
      if ok {
        forwarder := Forwarding;
      } else {
        toEarth := false;
        forwarder := GaveUp;
      }
    }

    /** One iteration of the loop of `retransmit_telemetry`, given whether
        `sendall` succeeded. */
    method ForwardStep(sendOk: bool)
      requires Valid() && forwarder == Forwarding
      modifies this
      ensures Valid() && State() == Forward(old(State()), sendOk)
    {
      ghost var before := State();
      if |telemetryBuffer| != 0 {
        var telemetry := telemetryBuffer[0];
        telemetryBuffer := telemetryBuffer[1..];
        if sendOk {
          sent := sent + [telemetry];
          toEarth := true;
        } else {
          toEarth := false;
          // requeue for retry, at the tail
          telemetryBuffer := telemetryBuffer + [telemetry];
        }
        assert State() == Forward(before, sendOk);
      }
      RelayProperties.StepKeepsBound(before, SendAttempt(sendOk));
      RelayProperties.StepConserves(before, SendAttempt(sendOk));
    }

    /** `get_link_status`. */
    method GetLinkStatus() returns (status: LinkStatus)
      ensures status.toRover == toRover && status.toEarth == toEarth
    {
      status := LinkStatus(toRover, toEarth);
    }
  }
}
