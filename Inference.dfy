/** The post-inference filter of `run_inference_on_frame` in
    inference_edgetpu.py: the model's three output tensors, already read out
    of the interpreter, are turned into a list of detections above a
    confidence threshold. */
module Inference {

  /** The output tensors of one inference: one score, one bounding box and
      one class id per candidate.  A box is a row of the [N, 4] tensor. */
  datatype Tensors = Tensors(scores: seq<real>, boxes: seq<seq<real>>, classIds: seq<real>)
  {
    /** Some tensor has no elements at all (`size == 0`); the box tensor has
        none when every one of its rows is empty. */
    predicate NoOutputs()
      ensures !NoOutputs() ==> |scores| > 0 && |classIds| > 0 && |boxes| > 0
    {
      |scores| == 0 || |classIds| == 0 || forall i :: 0 <= i < |boxes| ==> boxes[i] == []
    }

    /** How many candidates the loop walks. */
    function Bound(): (n: nat)
      ensures n <= |scores| && n <= |boxes| && n <= |classIds|
    {
      Min3(|scores|, |classIds|, |boxes|)
    }
  }

  /** One entry of the returned list: the dictionary with keys class_id,
      bbox, score and label. */
  datatype Detection = Detection(classId: int, bbox: seq<real>, score: real, labelText: string)

  /** The default value of the `threshold` parameter. */
  const DefaultThreshold: real := 0.5

  /** The label of a class id missing from the label map. */
  const UnknownLabel: string := "Unknown"

  /** Python's `min` of three lengths. */
  function Min3(a: nat, b: nat, c: nat): (m: nat)
    ensures m <= a && m <= b && m <= c
    ensures m == a || m == b || m == c
  {
    if a <= b && a <= c then a else if b <= c then b else c
  }

  /** Python's `int` applied to a float: truncation toward zero. */
  function Truncate(x: real): (n: int)
    ensures 0.0 <= x ==> n as real <= x < n as real + 1.0
    ensures x < 0.0 ==> n as real - 1.0 < x <= n as real
  {
    if 0.0 <= x then x.Floor else -((-x).Floor)
  }

  /** `labels.get(class_id, "Unknown")`. */
  function LabelOf(labels: map<int, string>, classId: int): (l: string)
    ensures l in labels.Values || l == UnknownLabel
    ensures classId in labels ==> l == labels[classId]
    ensures classId !in labels ==> l == UnknownLabel
  {
    if classId in labels then labels[classId] else UnknownLabel
  }

  /** The detection the loop builds for candidate `i`. */
  function DetectionAt(t: Tensors, labels: map<int, string>, i: nat): (d: Detection)
    requires i < |t.scores| && i < |t.boxes| && i < |t.classIds|
    ensures d.bbox == t.boxes[i] && d.score == t.scores[i]
    ensures -1.0 < d.classId as real - t.classIds[i] < 1.0
    ensures d.classId == Truncate(t.classIds[i]) && d.labelText == LabelOf(labels, d.classId)
    ensures d.labelText in labels.Values || d.labelText == UnknownLabel
  {
    var classId := Truncate(t.classIds[i]);
    Detection(classId, t.boxes[i], t.scores[i], LabelOf(labels, classId))
  }

  /** The candidates below `n` whose score is above the threshold, in increasing order. */
  function Qualifying(scores: seq<real>, threshold: real, n: nat): seq<nat>
    requires n <= |scores|
  {
    if n == 0 then []
    else Qualifying(scores, threshold, n - 1) + (if scores[n - 1] > threshold then [n - 1] else [])
  }

  /** The detections for the candidates below `n`, in index order. */
  function Selected(t: Tensors, labels: map<int, string>, threshold: real, n: nat): (r: seq<Detection>)
    requires n <= |t.scores| && n <= |t.boxes| && n <= |t.classIds|
    ensures |r| <= n
    ensures forall d :: d in r ==> d.score > threshold
  {
    if n == 0 then []
    else
      Selected(t, labels, threshold, n - 1) +
      (if t.scores[n - 1] > threshold then [DetectionAt(t, labels, n - 1)] else [])
  }

  /** What `run_inference_on_frame` returns for the given tensors. */
  function Detections(t: Tensors, labels: map<int, string>, threshold: real): (r: seq<Detection>)
    ensures t.NoOutputs() ==> r == []
    ensures |r| <= t.Bound()
    ensures forall d :: d in r ==> d.score > threshold
  {
    if t.NoOutputs() then [] else Selected(t, labels, threshold, t.Bound())
  }

  /** The filter of `run_inference_on_frame` (the part after the interpreter
      has run), with the loop that appends one detection per candidate above
      the threshold. */
  method RunInferenceOnFrame(t: Tensors, labels: map<int, string>, threshold: real := DefaultThreshold)
    returns (detections: seq<Detection>)
    ensures detections == Detections(t, labels, threshold)
  {
    if t.NoOutputs() {
      return [];
    }
    detections := [];
    var n := Min3(|t.scores|, |t.classIds|, |t.boxes|);
    for i := 0 to n
      invariant detections == Selected(t, labels, threshold, i)
    {
      if t.scores[i] > threshold {
        var bbox := t.boxes[i];
        var classId := if i < |t.classIds| then Truncate(t.classIds[i]) else -1;
        detections := detections + [Detection(classId, bbox, t.scores[i], LabelOf(labels, classId))];
      }
    }
  }

  /** The qualifying candidates are exactly those below `n` scoring above the
      threshold, each listed once, in increasing order. */
  lemma {:induction false} QualifyingExactly(scores: seq<real>, threshold: real, n: nat)
    requires n <= |scores|
    ensures |Qualifying(scores, threshold, n)| <= n
    ensures forall k :: 0 <= k < |Qualifying(scores, threshold, n)| ==> Qualifying(scores, threshold, n)[k] < n
    ensures forall i: nat :: i in Qualifying(scores, threshold, n) <==> i < n && scores[i] > threshold
    ensures forall j, k :: 0 <= j < k < |Qualifying(scores, threshold, n)| ==>
      Qualifying(scores, threshold, n)[j] < Qualifying(scores, threshold, n)[k]
  {
    if n > 0 {
      QualifyingExactly(scores, threshold, n - 1);
      var q, q' := Qualifying(scores, threshold, n - 1), Qualifying(scores, threshold, n);
      assert q' == q + (if scores[n - 1] > threshold then [n - 1] else []);
      assert forall k :: 0 <= k < |q| ==> q'[k] == q[k] < n - 1;
    }
  }

  /** The k-th selected detection is the one built for the k-th qualifying candidate. */
  lemma {:induction false} SelectedFollowsQualifying(t: Tensors, labels: map<int, string>, threshold: real, n: nat)
    requires n <= |t.scores| && n <= |t.boxes| && n <= |t.classIds|
    ensures |Selected(t, labels, threshold, n)| == |Qualifying(t.scores, threshold, n)|
    ensures forall k :: 0 <= k < |Selected(t, labels, threshold, n)| ==>
      Qualifying(t.scores, threshold, n)[k] < n &&
      Selected(t, labels, threshold, n)[k] == DetectionAt(t, labels, Qualifying(t.scores, threshold, n)[k])
  {
    if n > 0 {
      SelectedFollowsQualifying(t, labels, threshold, n - 1);
      QualifyingExactly(t.scores, threshold, n - 1);
      var sel, q := Selected(t, labels, threshold, n - 1), Qualifying(t.scores, threshold, n - 1);
      var sel', q' := Selected(t, labels, threshold, n), Qualifying(t.scores, threshold, n);
      if t.scores[n - 1] > threshold {
        assert sel' == sel + [DetectionAt(t, labels, n - 1)] && q' == q + [n - 1];
      } else {
        assert sel' == sel && q' == q;
      }
    }
  }

  /** What the returned list is: empty when a tensor is empty; otherwise one
      detection per candidate below the bound whose score is above the
      threshold, in index order, carrying that candidate's box, score and
      truncated class id (never the -1 fallback) and the label of that id,
      "Unknown" when the map lacks it. */
  lemma DetectionsExactly(t: Tensors, labels: map<int, string>, threshold: real)
    ensures t.NoOutputs() ==> Detections(t, labels, threshold) == []
    ensures !t.NoOutputs() ==>
      var r, q := Detections(t, labels, threshold), Qualifying(t.scores, threshold, t.Bound());
      |r| == |q| <= t.Bound() &&
      (forall i: nat :: i in q <==> i < t.Bound() && t.scores[i] > threshold) &&
      (forall j, k :: 0 <= j < k < |q| ==> q[j] < q[k]) &&
      forall k :: 0 <= k < |r| ==>
        q[k] < t.Bound() &&
        r[k].classId == Truncate(t.classIds[q[k]]) && r[k].bbox == t.boxes[q[k]] &&
        r[k].score == t.scores[q[k]] && r[k].score > threshold &&
        r[k].labelText == (if r[k].classId in labels then labels[r[k].classId] else UnknownLabel)
  {
    if !t.NoOutputs() {
      QualifyingExactly(t.scores, threshold, t.Bound());
      SelectedFollowsQualifying(t, labels, threshold, t.Bound());
    }
  }

  /** Every returned detection scores above the threshold and there are never
      more of them than the shortest tensor has entries. */
  lemma DetectionsAboveThreshold(t: Tensors, labels: map<int, string>, threshold: real)
    ensures |Detections(t, labels, threshold)| <= Min3(|t.scores|, |t.classIds|, |t.boxes|)
    ensures forall d :: d in Detections(t, labels, threshold) ==> d.score > threshold
  {
    DetectionsExactly(t, labels, threshold);
  }
}
