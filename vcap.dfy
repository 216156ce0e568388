/** The parts of the capsule library that the face-detector capsules use: the
    declaration of what a capsule consumes and produces, the detector's raw
    predictions, the detection nodes a backend returns, and float options. */
module Vcap {
  import opened Basics

  /** How many detections a capsule consumes or produces. */
  datatype Size = NONE | SINGLE | ALL

  /** A capsule's `input_type` or `output_type`: a size, the detection names, and the
      keys of `extra_data`. */
  datatype NodeDescription = NodeDescription(size: Size, detections: seq<string>, extraData: seq<string>)

  /** A detector's bounding rectangle `[x1, y1, x2, y2]`. */
  datatype Rect = Rect(x1: int, y1: int, x2: int, y2: int)

  /** One raw prediction of the object detector: class name, confidence and rectangle. */
  datatype Prediction = Prediction(name: string, confidence: real, rect: Rect)

  /** A detection handed on to other capsules. `extra_data` maps a key to a number; the
      capsules here only ever store a confidence in it. */
  datatype DetectionNode = DetectionNode(name: string, coords: seq<Point>, extraData: map<string, real>)

  /** A `FloatOption`: its default and the closed range of values it accepts. */
  datatype FloatOption = FloatOption(default: real, minVal: real, maxVal: real)

  /** The static declarations of a capsule class. */
  datatype CapsuleDecl = CapsuleDecl(
    name: string,
    version: nat,
    inputType: NodeDescription,
    outputType: NodeDescription,
    options: map<string, FloatOption>)

  /** `v` lies within the option's declared bounds. */
  predicate Admits(option: FloatOption, v: real)
  {
    option.minVal <= v <= option.maxVal
  }

  /** The node is of a detection type the description names and carries every
      `extra_data` key it declares. */
  predicate Describes(desc: NodeDescription, node: DetectionNode)
  {
    && node.name in desc.detections
    && (forall k :: k in desc.extraData ==> k in node.extraData)
  }
}
