/** The `detector_face` capsule: a second copy of the face detector, with the same
    filter loop and the same declarations. Its loop is proved against the filter of
    the `face_detector` capsule, so every property proved there carries over. */
module DetectorFace {
  import opened Basics
  import opened Vcap
  import FaceDetector

  /** The class attributes of the capsule. */
  const Capsule: CapsuleDecl := CapsuleDecl(
    "face_detector",
    1,
    NodeDescription(NONE, [], []),
    NodeDescription(ALL, [FaceDetector.FaceName], [FaceDetector.ConfidenceKey]),
    map[FaceDetector.ThresholdKey := FloatOption(0.5, 0.0, 1.0)])

  /** The backend's `process_frame`: the incoming `detectionNode` is never read, and the
      result is the face filter over this frame's predictions, whose nodes conform to
      this capsule's declared output type. */
  method ProcessFrame(
    predictions: seq<Prediction>,
    detectionNode: seq<DetectionNode>,
    options: map<string, real>,
    rectToCoords: Rect -> seq<Point>)
    returns (detectionNodes: seq<DetectionNode>)
    requires FaceDetector.ThresholdKey in options
    ensures detectionNodes == FaceDetector.FaceDetections(predictions, options[FaceDetector.ThresholdKey], rectToCoords)
    ensures |detectionNodes| <= |predictions|
    ensures forall n :: n in detectionNodes ==> Describes(Capsule.outputType, n)
  {
    var threshold := options[FaceDetector.ThresholdKey];
    detectionNodes := [];
    for i := 0 to |predictions|
      invariant detectionNodes == FaceDetector.FaceDetections(predictions[..i], threshold, rectToCoords)
    {
      assert predictions[..i + 1][..i] == predictions[..i];
      var prediction := predictions[i];
      if prediction.name != FaceDetector.FaceName {
        continue;
      }
      if prediction.confidence < threshold {
        continue;
      }
      var newDetection := DetectionNode(
        prediction.name,
        rectToCoords(prediction.rect),
        map[FaceDetector.ConfidenceKey := prediction.confidence]);
      detectionNodes := detectionNodes + [newDetection];
    }
    assert predictions[..|predictions|] == predictions;
    FaceDetector.NoMoreNodesThanPredictions(predictions, threshold, rectToCoords);
    OutputMatchesDeclaration(predictions, threshold, rectToCoords);
  }

  /** This capsule declares the same output type as `face_detector`, so the filter's
      nodes conform to it: each is a "face" whose `extra_data` keys are exactly
      `detection_confidence`. */
  lemma OutputMatchesDeclaration(predictions: seq<Prediction>, threshold: real, rectToCoords: Rect -> seq<Point>)
    ensures forall n :: n in FaceDetector.FaceDetections(predictions, threshold, rectToCoords) ==>
      Describes(Capsule.outputType, n) && n.extraData.Keys == set k | k in Capsule.outputType.extraData
  {
    assert Capsule.outputType == FaceDetector.Capsule.outputType;
    FaceDetector.OutputMatchesDeclaration(predictions, threshold, rectToCoords);
  }

  /** The input type consumes no detections, and the default threshold lies within the
      option's declared bounds. */
  lemma Declarations()
    ensures Capsule.inputType.size == NONE
    ensures FaceDetector.ThresholdKey in Capsule.options
    ensures Admits(Capsule.options[FaceDetector.ThresholdKey], Capsule.options[FaceDetector.ThresholdKey].default)
  {
  }
}
