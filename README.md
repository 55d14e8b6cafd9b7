# CoralCom telemetry relay and detection filter, modelled in Dafny

This project models two pieces of the CoralCom rover software.

**The rover-to-earth telemetry relay** (`TelemetryRetransmission` in
retransmission.py). A listener thread receives telemetry datagrams from the
rover, decodes them and puts them into a bounded queue (`Queue(maxsize=buffer_size)`).
When the queue is full it first discards the oldest record. A forwarder thread
connects once to mission control ("earth"). It then loops: it takes the head
of the queue and sends it. On success it marks the earth link up. On failure
it marks the earth link down and puts the record back into the queue. When the
queue is empty it idles. The two `link_status` flags, `to_rover` and
`to_earth`, are each written by one thread only.

The model has three parts:

- `RelaySpec` is a sequential state machine over values. `Relay<T>` is the
  whole relay state: the queue, its maxsize, the two flags, where each thread
  is, and three logs. The logs are the records received, the records sent, and
  the records evicted by drop-oldest. The transitions are `Receive` (one
  listener iteration), `Connect` (the one connect attempt) and `Forward` (one
  forwarder iteration). `Run` plays any interleaving of these events.
  Records are a type parameter: the JSON codec is a library.
- `Retransmission.TelemetryRetransmission` is the object. Its fields are
  updated in place, one method per loop iteration. Each method is proved to
  perform the matching `RelaySpec` transition. Each also keeps the queue
  within its maxsize and accounts for every record.
- `RelayProperties` proves what the relay guarantees about any interleaving:
  the bound, conservation of records, arrival order while no failed send reorders the queue, and
  which thread writes which flag. It also proves what the relay does not
  guarantee: after a failed send, newer records overtake the retried one.

**The post-inference detection filter** (`run_inference_on_frame` in
inference_edgetpu.py, lines 54-71). The three output tensors (scores, boxes,
class ids) are inputs. `Inference.RunInferenceOnFrame` is the loop that
builds the list of detections. It is proved equal to the recursive
specification `Detections`, and its `threshold` parameter defaults to
`Inference.DefaultThreshold` (0.5) as in the source. Lemmas state what that list is. It holds one
detection per candidate scoring above the threshold, in index order, with the
candidate's box, score, truncated class id and label (default `"Unknown"`).
Only indices below the shortest tensor length are examined.

### Behaviour of the code as written

The model follows the code in each of these points.

- A record whose send failed is put back with `put`, so it goes to the TAIL
  of the queue. It is not put back at the head. Records already queued behind
  it are therefore sent first (`RequeueLetsNewerOvertake`,
  `FailedSendBreaksOrder`).
- After a send failure the connection is never reopened. `connect` is called
  once, at retransmission.py:88. The forwarder keeps retrying on the same
  socket.
- A failed initial connect is not surfaced to any caller. It sets `to_earth`
  false and the forwarder thread ends (`GaveUpForwarderIsInert`).
- The listener catches only `socket.error` and `json.JSONDecodeError`. Any
  other exception ends the listener thread. The main case is a payload that is
  not UTF-8, which raises `UnicodeDecodeError` at retransmission.py:68. This
  outcome is `Arrival.Uncaught` in the model (`CrashedListenerIsDeaf`).
- A `buffer_size` of 0 or less makes Python's `Queue` unbounded. `full()` is
  then never true and nothing is evicted. The model keeps this (`Full`).
- Received telemetry is logged after it is queued, not before. Evictions are
  not logged.

## Model

| member | source | states |
|---|---|---|
| `Retransmission.TelemetryRetransmission.constructor` | retransmission.py:9-30 | The new relay has an empty queue whose maxsize is `buffer_size` (500 when not given), both link flags true, nothing received or sent, and it satisfies the bound and conservation invariants |
| `RelaySpec.Init` | retransmission.py:29-30 | The initial state has an empty queue, both links up, and satisfies the bound and the record accounting |
| `RelaySpec.Full` | retransmission.py:71 | `Queue.full()`: a full queue is never empty, and a queue of maxsize 0 or less is never full |
| `RelaySpec.Receive` | retransmission.py:65-82 | One listener iteration keeps the bound, never changes `to_earth`, the forwarder or the sent log, and logs exactly the decoded record as received |
| `RelaySpec.Connect` | retransmission.py:87-107 | The connect attempt touches only the forwarder's side: the queue, its maxsize, all three logs (received, sent, evicted) and `to_rover` stay; `to_earth` stays up only on success; the forwarder leaves `Connecting` |
| `RelaySpec.Forward` | retransmission.py:89-104 | One forwarder iteration shortens the queue by at most one record, and the sent log grows by exactly that many records taken from the front of the old queue (its head when a record leaves), never changes `to_rover`, the received log or the evictions, stays in the loop, and sets `to_earth` to the send's outcome when a record was there |
| `Retransmission.TelemetryRetransmission.ReceiveTelemetry` | retransmission.py:65-82 | One listener iteration performs exactly the `Receive` transition on the object's state and keeps the queue bound and the record accounting |
| `Retransmission.TelemetryRetransmission.ConnectToEarth` | retransmission.py:87-107 | The single connect attempt performs exactly the `Connect` transition: success enters the send loop; failure sets `to_earth` false and ends the forwarder |
| `Retransmission.TelemetryRetransmission.ForwardStep` | retransmission.py:89-104 | One forwarder iteration performs exactly the `Forward` transition (idle, send the head, or requeue it at the tail) and keeps the queue bound and the record accounting |
| `Retransmission.TelemetryRetransmission.GetLinkStatus` | retransmission.py:109-111 | Returns the current `to_rover` and `to_earth` flags |
| `RelayProperties.InitialState` | retransmission.py:26-30 | The initial state has an empty queue of maxsize `buffer_size` and both links up, and the bound and conservation invariants hold |
| `RelayProperties.ReceiveDecoded` | retransmission.py:71-79 | A decoded record is appended at the tail. The head is dropped (and only the head) exactly when the queue was full. `to_rover` becomes true and the record is logged as received; every other field, `to_earth` included, is unchanged |
| `RelayProperties.ReceiveFailure` | retransmission.py:67-82 | A socket or JSON error leaves everything but `to_rover` unchanged and sets it false. An uncaught exception ends the listener and changes nothing else |
| `RelayProperties.ReceiveKeepsNewest` | retransmission.py:71-74 | With a positive maxsize, receiving one record leaves the last `maxsize` records of the old queue followed by the new one |
| `RelayProperties.ReceiveAllKeepsNewest` | retransmission.py:65-74 | Any stream of decoded records received with no dequeues leaves exactly the last `maxsize` of old queue plus stream, in arrival order. The stream is appended to the received log, and the forwarder's side (its phase, the sent log and `to_earth`) is untouched |
| `RelayProperties.FreshRelayKeepsLastRecords` | retransmission.py:29-74 | More than `maxsize` records received into a fresh relay leave exactly the last `maxsize` of them |
| `RelayProperties.CapacityThreeScenario` | retransmission.py:71-95 | Capacity 3, records A, B, C, D gives the queue [B, C, D]. After a successful connect the first record sent is B |
| `RelayProperties.ForwardIdle` | retransmission.py:90-104 | A forwarder iteration on an empty queue changes nothing, neither the queue nor a flag |
| `RelayProperties.ForwardSuccess` | retransmission.py:90-95 | A successful send removes exactly the head, appends it to the sent log and sets `to_earth` true; every other field is unchanged |
| `RelayProperties.ForwardFailure` | retransmission.py:91-102 | A failed send rotates the queue (`old[1..] + [old[0]]`), keeping its length and multiset of records. It sets `to_earth` false and changes nothing else: nothing is sent and the forwarder stays in the loop without reconnecting |
| `RelayProperties.RetryDeliversOnce` | retransmission.py:91-102 | A lone record whose send fails once and then succeeds is delivered exactly once, and `to_earth` goes false and then true |
| `RelayProperties.RequeueLetsNewerOvertake` | retransmission.py:91-102 | With [x, y] queued, a failed send of x followed by a successful send delivers y first and leaves [x] queued |
| `RelayProperties.ConnectFailure` | retransmission.py:105-107 | A failed connect sets `to_earth` false and ends the forwarder; every other field is unchanged |
| `RelayProperties.StepOwnership` | retransmission.py:79-107 | A listener event never changes `to_earth`, the forwarder or the sent log. A forwarder event never changes `to_rover`, the listener or the received log |
| `RelayProperties.ListenerOnlyTouchesItsOwn` | retransmission.py:62-82 | Any run of listener events leaves `to_earth`, the forwarder's phase and the sent log as they were |
| `RelayProperties.GaveUpForwarderIsInert` | retransmission.py:84-107 | After a failed connect, every interleaving behaves as its listener events alone: nothing is ever sent, the forwarder never touches the queue, and `to_earth` keeps its value |
| `RelayProperties.CrashedListenerIsDeaf` | retransmission.py:62-82 | After the listener ends on an uncaught exception, every interleaving behaves as its forwarder events alone: nothing more is received and `to_rover` keeps its value |
| `RelayProperties.StepKeepsBound` | retransmission.py:71-102 | No event makes the queue exceed a positive maxsize |
| `RelayProperties.RunKeepsBound` | retransmission.py:29-102 | Every interleaving of events keeps the queue within a positive maxsize |
| `RelayProperties.StepConserves` | retransmission.py:71-102 | No event creates or loses a record: received = queued + sent + evicted, as multisets |
| `RelayProperties.RunInvariants` | retransmission.py:29-102 | Every interleaving keeps both the bound and the record accounting |
| `RelayProperties.StepKeepsOrder` | retransmission.py:71-102 | Every event except a failed send with two or more records queued keeps "sent, then queued" a subsequence of the received log |
| `RelayProperties.InitInArrivalOrder` | retransmission.py:29-30 | A fresh relay, with nothing sent or queued, starts in arrival order, so the order theorems apply to every run from `__init__` |
| `RelayProperties.RunWithoutReorderKeepsOrder` | retransmission.py:65-102 | While no failed send finds two or more records queued, records are sent in arrival order, with evicted ones skipped |
| `RelayProperties.NoFailureNeverReorders` | retransmission.py:96-102 | An interleaving with no failed send has no reordering step |
| `RelayProperties.RunWithoutFailureKeepsOrder` | retransmission.py:65-95 | While no send fails, records are sent in arrival order, with evicted ones skipped |
| `RelayProperties.FailedSendBreaksOrder` | retransmission.py:96-102 | One failed send with two distinct records queued puts them out of arrival order |
| `Inference.RunInferenceOnFrame` | inference_edgetpu.py:54-71 | The filter loop returns exactly `Detections` of the tensors: empty when any tensor is empty, otherwise one detection per qualifying candidate below the bound |
| `Inference.Tensors.NoOutputs` | inference_edgetpu.py:54 | `size == 0` of some tensor; when no tensor is empty, all three have at least one entry |
| `Inference.LabelOf` | inference_edgetpu.py:68 | `labels.get(class_id, "Unknown")`: the map's label when the id is a key, and "Unknown" when it is not |
| `Inference.DetectionAt` | inference_edgetpu.py:62-69 | The detection for one candidate carries its box and score, the raw class id truncated toward zero (so within one of it), and that id's label from the map, "Unknown" when the map lacks it |
| `Inference.Selected` | inference_edgetpu.py:59-69 | The detections of the first `n` candidates number at most `n` and all score above the threshold |
| `Inference.Detections` | inference_edgetpu.py:54-71 | The returned list is empty when a tensor is empty, has at most as many entries as the loop bound, and all score above the threshold |
| `Inference.Min3` | inference_edgetpu.py:60 | Python's `min` of the three lengths: no greater than any of them and equal to one of them |
| `Inference.Tensors.Bound` | inference_edgetpu.py:60 | The loop bound never exceeds the length of any of the three tensors |
| `Inference.Truncate` | inference_edgetpu.py:63 | `int()` of a float truncates toward zero: the result is within one of the input, on the zero side |
| `Inference.QualifyingExactly` | inference_edgetpu.py:60-61 | The qualifying candidates are exactly the indices below the bound whose score is above the threshold. They are strictly increasing, so each appears once |
| `Inference.SelectedFollowsQualifying` | inference_edgetpu.py:59-69 | The k-th detection is the one built for the k-th qualifying candidate |
| `Inference.DetectionsExactly` | inference_edgetpu.py:54-71 | The returned list is empty when a tensor is empty. Otherwise it has one detection per qualifying index, in increasing index order. Each carries that index's box and score (above the threshold), its truncated class id (never the -1 fallback), and the label from the map, defaulting to "Unknown" |
| `Inference.DetectionsAboveThreshold` | inference_edgetpu.py:60-67 | Every returned detection scores above the threshold, and there are no more of them than the shortest tensor's length |

## Left out

- Sockets are not modelled: creation, `bind`, `connect`, `sendall`, `recvfrom` and the 1024-byte receive cap. Their outcomes are method parameters: `Arrival` for a receive, a boolean for a connect or a send.
- Threads, `stop_event`, `start`/`stop` and the `__main__` loop are not modelled. The two workers are an interleaving of atomic loop iterations (`Event`, `Run`), and shutdown is not modelled.
- The interleaving inside a failed send is not modelled. In the source the `get`, the `time.sleep(resend_interval)` and the requeueing `put` are separate. The listener can refill the queue during the sleep, and the `put` then blocks. Here a failed send is one atomic step, so the requeue always fits.
- The interleaving inside a receive is not modelled. The listener's `full()`, `get()` and `put()` (retransmission.py:71-74) are separate calls. The forwarder can take records between `full()` and `get()`, and the listener then discards a record although the queue is no longer full. With `buffer_size=1`, the listener's `get()` can block for ever on a queue the forwarder emptied, so it stops receiving and `to_rover` goes stale. Here a receive is one atomic step.
- `time.sleep` for the resend interval and for idle polling is not modelled: there is no time in the model.
- `logging` and `print` are not modelled. The ghost received and sent logs stand for the log file's entries, without text or timestamps.
- JSON encoding and decoding are not modelled. Records are opaque, and a decode failure is an `Arrival` outcome.
- Retransmission.TelemetryRetransmission.GetLinkStatus: returns a copy of the two flags. The source returns the live `link_status` dictionary, so the caller sees later updates through it.
- `load_labels`, `initialize_interpreter` and the interpreter calls at inference_edgetpu.py:34-44 are not modelled. They are calls into pycoral and numpy, so the output tensors are inputs.
- Floating point is not modelled. Scores, boxes and class ids are `real`s, and float32 rounding is out of scope.
- Tensor shape is not modelled. Boxes are a sequence of rows, and numpy's rectangular shape is not enforced. A box tensor "has no elements" when every row is empty.
- vision.py, flask_streamer.py and Lan_test_3/model_test_edgetpu.py are not part of this model. They handle camera capture, drawing, HTTP streaming and test scripts over vendor libraries.
