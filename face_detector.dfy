/** The `face_detector` capsule: a backend that keeps the confident face predictions of
    one frame as detection nodes, and the capsule's declarations. */
module FaceDetector {
  import opened Basics
  import opened Vcap

  const FaceName: string := "face"
  const ConfidenceKey: string := "detection_confidence"
  const ThresholdKey: string := "threshold"

  /** The class attributes of the capsule: consumes nothing, produces all the faces of
      a frame with their confidence, and offers a threshold option. */
  const Capsule: CapsuleDecl := CapsuleDecl(
    "face_detector",
    1,
    NodeDescription(NONE, [], []),
    NodeDescription(ALL, [FaceName], [ConfidenceKey]),
    map[ThresholdKey := FloatOption(0.5, 0.0, 1.0)])

  /** The prediction survives both filters: it is a face, and its confidence is not
      below the threshold. */
  predicate Passes(p: Prediction, threshold: real)
  {
    p.name == FaceName && !(p.confidence < threshold)
  }

  /** The detection node built from a prediction; `rectToCoords` turns the rectangle
      into the polygon's vertices. */
  function NodeOf(p: Prediction, rectToCoords: Rect -> seq<Point>): DetectionNode
  {
    DetectionNode(p.name, rectToCoords(p.rect), map[ConfidenceKey := p.confidence])
  }

  /** The node of every prediction, filter or not. */
  function NodesOf(predictions: seq<Prediction>, rectToCoords: Rect -> seq<Point>): (r: seq<DetectionNode>)
    ensures |r| == |predictions|
    ensures forall k :: 0 <= k < |predictions| ==> r[k] == NodeOf(predictions[k], rectToCoords)
  {
    seq(|predictions|, k requires 0 <= k < |predictions| => NodeOf(predictions[k], rectToCoords))
  }

  /** What `process_frame` returns for a frame's predictions: the predictions are
      visited in order and each one that passes contributes its node. */
  function FaceDetections(predictions: seq<Prediction>, threshold: real, rectToCoords: Rect -> seq<Point>): seq<DetectionNode>
  {
    if |predictions| == 0 then []
    else
      var last := predictions[|predictions| - 1];
      FaceDetections(predictions[..|predictions| - 1], threshold, rectToCoords)
        + (if Passes(last, threshold) then [NodeOf(last, rectToCoords)] else [])
  }

  /** The backend's `process_frame`. The predictions come back from the batch queue for
      this frame; the incoming `detectionNode` is never read. */
  method ProcessFrame(
    predictions: seq<Prediction>,
    detectionNode: seq<DetectionNode>,
    options: map<string, real>,
    rectToCoords: Rect -> seq<Point>)
    returns (nodes: seq<DetectionNode>)
    requires ThresholdKey in options
    ensures nodes == FaceDetections(predictions, options[ThresholdKey], rectToCoords)
    ensures |nodes| <= |predictions|
    ensures forall n :: n in nodes ==> Describes(Capsule.outputType, n)
  {
    nodes := [];
    for i := 0 to |predictions|
      invariant nodes == FaceDetections(predictions[..i], options[ThresholdKey], rectToCoords)
    {
      assert predictions[..i + 1][..i] == predictions[..i];
      var prediction := predictions[i];
      if prediction.name != FaceName {
        continue;
      }
      if prediction.confidence < options[ThresholdKey] {
        continue;
      }
      var newDetection := DetectionNode(
        prediction.name,
        rectToCoords(prediction.rect),
        map[ConfidenceKey := prediction.confidence]);
      nodes := nodes + [newDetection];
    }
    assert predictions[..|predictions|] == predictions;
    NoMoreNodesThanPredictions(predictions, options[ThresholdKey], rectToCoords);
    OutputMatchesDeclaration(predictions, options[ThresholdKey], rectToCoords);
  }

  /** `idx` lists, in increasing order, exactly the positions of the predictions named
      "face" whose confidence is at least the threshold, and the result holds their
      nodes in that order. */
  ghost predicate SelectedBy(predictions: seq<Prediction>, threshold: real, rectToCoords: Rect -> seq<Point>, idx: seq<nat>)
  {
    && EmbeddedBy(FaceDetections(predictions, threshold, rectToCoords), NodesOf(predictions, rectToCoords), idx)
    && (forall i :: 0 <= i < |predictions| ==>
          (i in idx <==> predictions[i].name == FaceName && threshold <= predictions[i].confidence))
  }

  /** The result is the order-preserving subsequence of the predictions' nodes made of
      exactly the predictions named "face" whose confidence is at least the threshold:
      a confidence equal to the threshold is kept, one below it is dropped. */
  lemma {:induction false} SelectsPassing(predictions: seq<Prediction>, threshold: real, rectToCoords: Rect -> seq<Point>)
    ensures exists idx :: SelectedBy(predictions, threshold, rectToCoords, idx)
  {
    var n := |predictions|;
    if n == 0 {
      assert SelectedBy(predictions, threshold, rectToCoords, []);
    } else {
      var init, last := predictions[..n - 1], predictions[n - 1];
      SelectsPassing(init, threshold, rectToCoords);
      var idx0: seq<nat> :| SelectedBy(init, threshold, rectToCoords, idx0);
      var kept0, before := FaceDetections(init, threshold, rectToCoords), NodesOf(init, rectToCoords);
      var all := NodesOf(predictions, rectToCoords);
      assert all == before + [NodeOf(last, rectToCoords)];
      assert forall k :: 0 <= k < |idx0| ==> idx0[k] < n - 1;
      if Passes(last, threshold) {
        EmbeddingAppend(kept0, before, idx0, NodeOf(last, rectToCoords));
        assert SelectedBy(predictions, threshold, rectToCoords, idx0 + [n - 1]);
      } else {
        EmbeddingIntoLonger(kept0, before, idx0, [NodeOf(last, rectToCoords)]);
        assert SelectedBy(predictions, threshold, rectToCoords, idx0);
      }
    }
  }

  /** The result is never longer than the list of predictions. */
  lemma {:induction false} NoMoreNodesThanPredictions(predictions: seq<Prediction>, threshold: real, rectToCoords: Rect -> seq<Point>)
    ensures |FaceDetections(predictions, threshold, rectToCoords)| <= |predictions|
  {
    if |predictions| > 0 {
      NoMoreNodesThanPredictions(predictions[..|predictions| - 1], threshold, rectToCoords);
    }
  }

  /** Every node is a face carrying exactly one `extra_data` entry, its
      `detection_confidence`, which is at least the threshold. */
  lemma {:induction false} EveryNodeIsAConfidentFace(predictions: seq<Prediction>, threshold: real, rectToCoords: Rect -> seq<Point>)
    ensures forall n :: n in FaceDetections(predictions, threshold, rectToCoords) ==>
      && n.name == FaceName
      && n.extraData.Keys == {ConfidenceKey}
      && threshold <= n.extraData[ConfidenceKey]
  {
    if |predictions| > 0 {
      EveryNodeIsAConfidentFace(predictions[..|predictions| - 1], threshold, rectToCoords);
    }
  }

  /** The nodes conform to the declared `output_type`: their name is among its
      detections and their `extra_data` keys are exactly its `extra_data`. */
  lemma OutputMatchesDeclaration(predictions: seq<Prediction>, threshold: real, rectToCoords: Rect -> seq<Point>)
    ensures forall n :: n in FaceDetections(predictions, threshold, rectToCoords) ==>
      Describes(Capsule.outputType, n) && n.extraData.Keys == set k | k in Capsule.outputType.extraData
  {
    EveryNodeIsAConfidentFace(predictions, threshold, rectToCoords);
    assert (set k | k in Capsule.outputType.extraData) == {ConfidenceKey};
  }

  /** Raising the threshold never adds a detection: the nodes kept at the higher
      threshold are a subsequence of those kept at the lower one. */
  lemma {:induction false} RaisingThresholdKeepsSubsequence(
    predictions: seq<Prediction>, low: real, high: real, rectToCoords: Rect -> seq<Point>)
    requires low <= high
    ensures IsSubsequence(FaceDetections(predictions, high, rectToCoords), FaceDetections(predictions, low, rectToCoords))
  {
    var n := |predictions|;
    var strict, loose := FaceDetections(predictions, high, rectToCoords), FaceDetections(predictions, low, rectToCoords);
    if n == 0 {
      assert EmbeddedBy(strict, loose, []);
    } else {
      var init, last := predictions[..n - 1], predictions[n - 1];
      RaisingThresholdKeepsSubsequence(init, low, high, rectToCoords);
      var strict0, loose0 := FaceDetections(init, high, rectToCoords), FaceDetections(init, low, rectToCoords);
      var idx0: seq<nat> :| EmbeddedBy(strict0, loose0, idx0);
      var node := NodeOf(last, rectToCoords);
      if Passes(last, high) {
        assert Passes(last, low);
        EmbeddingAppend(strict0, loose0, idx0, node);
        assert EmbeddedBy(strict, loose, idx0 + [|loose0|]);
      } else if Passes(last, low) {
        EmbeddingIntoLonger(strict0, loose0, idx0, [node]);
        assert EmbeddedBy(strict, loose, idx0);
      } else {
        assert EmbeddedBy(strict, loose, idx0);
      }
    }
  }

  /** The input type consumes no detections, and the default threshold lies within the
      option's declared bounds. */
  lemma Declarations()
    ensures Capsule.inputType.size == NONE
    ensures ThresholdKey in Capsule.options
    ensures Admits(Capsule.options[ThresholdKey], Capsule.options[ThresholdKey].default)
  {
  }
}
