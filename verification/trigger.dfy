/**
  The detector's output and the selection of the trigger observation made in
  `processObservations`: the first observation, in result order, whose
  top-ranked label is "person" with a confidence strictly above 0.9.
 */
module Trigger {
  import opened Optional
  import opened Geometry

  /** A `VNClassificationObservation`: a class label and its confidence. */
  datatype Label = Label(identifier: string, confidence: real)

  /**
    A `VNRecognizedObjectObservation`: candidate labels, best first, and a
    bounding box in normalized coordinates with the origin at the lower left.
   */
  datatype Observation = Observation(labels: seq<Label>, boundingBox: Rect)

  const TriggerIdentifier: string := "person"
  const ConfidenceThreshold: real := 0.9

  /** `labels.first?.identifier` */
  function TopIdentifier(o: Observation): Option<string> {
    if |o.labels| == 0 then None else Some(o.labels[0].identifier)
  }

  /** `labels.first?.confidence ?? 0` */
  function TopConfidence(o: Observation): real {
    if |o.labels| == 0 then 0.0 else o.labels[0].confidence
  }

  /** The predicate handed to `first(where:)`. */
  predicate Qualifies(o: Observation) {
    TopIdentifier(o) == Some(TriggerIdentifier) && TopConfidence(o) > ConfidenceThreshold
  }

  /** Some observation of the results qualifies; absent results never do. */
  predicate Detected(results: Option<seq<Observation>>) {
    results.Some? && exists i :: 0 <= i < |results.value| && Qualifies(results.value[i])
  }

  /** The index `first(where:)` stops at, if any. */
  function FirstQualifying(obs: seq<Observation>): (r: Option<nat>)
    ensures r.Some? ==> r.value < |obs| && Qualifies(obs[r.value])
    ensures r.Some? ==> forall j :: 0 <= j < r.value ==> !Qualifies(obs[j])
    ensures r.None? ==> forall j :: 0 <= j < |obs| ==> !Qualifies(obs[j])
  {
    if |obs| == 0 then None
    else if Qualifies(obs[0]) then Some(0)
    else match FirstQualifying(obs[1..])
      case None => None
      case Some(i) => Some(i + 1)
  }

  /**
    The trigger of one frame: `results.first(where: ...)` when the request
    produced object observations, and nothing when it did not.
   */
  function Select(results: Option<seq<Observation>>): (r: Option<Observation>)
    ensures r.Some? <==> Detected(results)
    ensures r.Some? ==> Qualifies(r.value) && r.value in results.value
  {
    match results
    case None => None
    case Some(obs) =>
      match FirstQualifying(obs)
      case None => None
      case Some(i) => Some(obs[i])
  }

  /**
    `Select` picks exactly the first qualifying observation: a candidate is
    the selection if and only if it qualifies and sits at a position before
    which nothing qualifies.
   */
  lemma SelectIsFirst(obs: seq<Observation>, o: Observation)
    ensures Select(Some(obs)) == Some(o) <==>
      exists i :: 0 <= i < |obs| && obs[i] == o && Qualifies(o) &&
        forall j :: 0 <= j < i ==> !Qualifies(obs[j])
  {
    var r := FirstQualifying(obs);
    if exists i :: 0 <= i < |obs| && obs[i] == o && Qualifies(o) && forall j :: 0 <= j < i ==> !Qualifies(obs[j]) {
      var i :| 0 <= i < |obs| && obs[i] == o && Qualifies(o) && forall j :: 0 <= j < i ==> !Qualifies(obs[j]);
      assert r.Some?;
    }
  }

  /**
    Selection over concatenated results: the first part wins whenever it
    holds a qualifying observation, otherwise the second part decides.
   */
  lemma {:induction false} SelectConcat(a: seq<Observation>, b: seq<Observation>)
    ensures Select(Some(a + b)) == if Detected(Some(a)) then Select(Some(a)) else Select(Some(b))
  {
    if |a| == 0 {
      assert a + b == b;
    } else {
      assert (a + b)[0] == a[0];
      assert (a + b)[1..] == a[1..] + b;
      SelectConcat(a[1..], b);
      if !Qualifies(a[0]) {
        assert Detected(Some(a)) <==> Detected(Some(a[1..])) by {
          if Detected(Some(a)) {
            var i :| 0 <= i < |a| && Qualifies(a[i]);
            assert a[1..][i - 1] == a[i];
          }
          if Detected(Some(a[1..])) {
            var i :| 0 <= i < |a[1..]| && Qualifies(a[1..][i]);
            assert a[i + 1] == a[1..][i];
          }
        }
      }
    }
  }
}
