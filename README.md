# BrainFrame tutorials: social distancing and face-detector capsules, in Dafny

The BrainFrame tutorials repository holds demo scripts that talk to a BrainFrame
server and example capsules (plugins) for its `vcap` library. This project models
the three files with logic of their own:

- `scripts/social_distancing.py`:
  - `check_overlap` tests whether two detection boxes overlap;
  - `get_distance` measures the distance between the centres of two detections;
  - the loop in `social_distancing` groups each zone status packet by stream and
    scans each stream's detections for the first pair closer than `min_distance`.
  Module `SocialDistancing` (`social_distancing.dfy`).
- `capsules/face_detector/capsule.py`: the backend's `process_frame` keeps the
  predictions named "face" whose confidence reaches the `threshold` option. It turns
  each one into a detection node carrying `detection_confidence`. The capsule also
  declares its input type, its output type and its options. Module `FaceDetector`
  (`face_detector.dfy`).
- `capsules/detector_face/capsule.py`: a second copy of the same capsule. Module
  `DetectorFace` (`detector_face.dfy`) models its own loop and declarations. It proves
  that loop against the `FaceDetector` filter, so the lemmas proved there also hold
  for this capsule.

Module `Vcap` (`vcap.dfy`) holds the `vcap` types these capsules use: node
descriptions, predictions, detection nodes and float options. Module `Basics`
(`basics.dfy`) holds `Option`, `Point` and the subsequence predicate.

Modelling choices:

- Sorting a projection and taking its first and last elements is modelled as
  `Least` and `Greatest` of the projection. `CheckOverlap` compares those values in
  the source's order, x axis first.
- `get_distance` takes a floating-point square root. The model keeps the integer
  squared distance instead. The script's test `distance < min_distance` becomes
  `Below(sq, min_distance)`: `0 < min_distance && sq < min_distance * min_distance`.
  `BelowMatchesRootComparison` proves that this agrees with comparing any
  non-negative real square root, including for a negative `min_distance`.
- An overlapping pair has distance 0, as in the script. A `Violation` records the
  pair's indices and that squared distance. The `print` becomes an entry of the map
  returned by `CheckPacket`.
- A packet is a map from stream id to a map from zone name to zone status. Zone
  names are dictionary keys, so a stream has at most one "Screen" zone. The
  comprehension therefore gives each stream at most one entry, and no later zone can
  overwrite an earlier one.
- Detections need at least one vertex (`HasCoords`). With an empty `coords`, the
  source fails on `sorted(...)[0]`.
- `process_frame` needs a `threshold` entry in `options`. Without it, the source
  fails on `options["threshold"]`.

## Model

| member | source | states |
|---|---|---|
| `SocialDistancing.Least` | scripts/social_distancing.py:17-23 | the first element of the sorted projection is an element of it that no element undercuts |
| `SocialDistancing.Greatest` | scripts/social_distancing.py:17-24 | the last element of the sorted projection is an element of it that no element exceeds |
| `SocialDistancing.OverlapIffCommonPoint` | scripts/social_distancing.py:16-33 | `check_overlap` is true exactly when the closed bounding rectangles of the two polygons share a point. Boxes with disjoint x- or y-projections do not overlap. Boxes touching along an edge or at a corner do overlap. |
| `SocialDistancing.SelfOverlap` | scripts/social_distancing.py:22-33 | a box overlaps an identical box |
| `SocialDistancing.OverlapSymmetric` | scripts/social_distancing.py:22-30 | `check_overlap(a, b) == check_overlap(b, a)` |
| `SocialDistancing.OverlapIgnoresVertexOrder` | scripts/social_distancing.py:16-20 | only the set of vertices matters: reordering or repeating a polygon's vertices does not change `check_overlap` |
| `SocialDistancing.FakeBoxExamples` | capsules/detector_bounding_box_fake/capsule.py:19 | the fake capsule's box overlaps itself and a box sharing its right edge, not a box one pixel further right |
| `SocialDistancing.SquaredDistance` | scripts/social_distancing.py:45-46 | the squared centre distance is a natural number, and it is zero exactly when the centres coincide |
| `SocialDistancing.DistanceSymmetric` | scripts/social_distancing.py:45-46 | the distance is the same from either detection |
| `SocialDistancing.BelowMatchesRootComparison` | scripts/social_distancing.py:83-86 | comparing squares against `min_distance²` is the same as comparing the square root against `min_distance`. Nothing is below a minimum that is not positive. |
| `SocialDistancing.FindViolation` | scripts/social_distancing.py:72-92 | the scan reports a pair `(i, j)`, `i < j`, exactly when some pair is closer than `min_distance` (overlapping pairs count as distance 0). The reported pair is the first in scan order, with its distance. Fewer than two detections report nothing. |
| `SocialDistancing.DetectionsPerStreamEntries` | scripts/social_distancing.py:62-67 | a stream has an entry exactly when it has a zone named "Screen", and the entry is that zone's `within` list |
| `SocialDistancing.DetectionsPerStreamIgnoresOtherZones` | scripts/social_distancing.py:62-67 | zones not named "Screen" have no influence on the grouping |
| `SocialDistancing.CheckPacket` | scripts/social_distancing.py:62-92 | each stream of the grouped packet has at most one report. A stream is reported exactly when its scan finds a violation, and then with its first violation. |
| `FaceDetector.ProcessFrame` | capsules/face_detector/capsule.py:38-57 | the loop returns the filtered nodes of the predictions, never more nodes than predictions. Each node conforms to the declared output type. The incoming `detection_node` does not influence the result. |
| `FaceDetector.SelectsPassing` | capsules/face_detector/capsule.py:40-56 | the result is the order-preserving subsequence of the predictions' nodes. It holds exactly the predictions named "face" whose confidence is at least the threshold: equal confidence is kept, lower is dropped. |
| `FaceDetector.NoMoreNodesThanPredictions` | capsules/face_detector/capsule.py:38-57 | the result is never longer than the predictions list |
| `FaceDetector.EveryNodeIsAConfidentFace` | capsules/face_detector/capsule.py:42-54 | every node is named "face". Its `extra_data` has the single key `detection_confidence`, with a value at least the threshold. |
| `FaceDetector.OutputMatchesDeclaration` | capsules/face_detector/capsule.py:74-78 | every node's name is among the declared detections, and its `extra_data` keys are exactly the declared `extra_data` |
| `FaceDetector.RaisingThresholdKeepsSubsequence` | capsules/face_detector/capsule.py:45-46 | the output for a higher threshold is a subsequence of the output for a lower one |
| `FaceDetector.Declarations` | capsules/face_detector/capsule.py:61-93 | the input type has size NONE, and the threshold option's default 0.5 lies within its bounds [0.0, 1.0] |
| `DetectorFace.ProcessFrame` | capsules/detector_face/capsule.py:40-61 | the second capsule's loop returns exactly the same filtered nodes, never more than the predictions, each conforming to its own declared output type. The incoming `detection_node` is unused. |
| `DetectorFace.OutputMatchesDeclaration` | capsules/detector_face/capsule.py:80-84 | nodes conform to this capsule's output type: names within `["face"]`, `extra_data` keys exactly `["detection_confidence"]` |
| `DetectorFace.Declarations` | capsules/detector_face/capsule.py:65-102 | the input type has size NONE, and the threshold default lies within its declared bounds |

## Left out

- The batch queue. `send_to_batch` and `prediction_output_queue.get()` are concurrent
  library calls. The predictions of one frame are an input of `ProcessFrame`, and
  the frame itself is not modelled.
- The `state` parameter of `process_frame` is unused in the source and is not
  modelled.
- `rect_to_coords` belongs to `vcap`, which is not part of this model. It is a
  function parameter of `ProcessFrame`.
- `Vcap.Describes` is this model's reading of conformance to a `NodeDescription`:
  the name is among the declared detections and every declared `extra_data` key is
  present. The library's own check is not part of this model.
- Floating point. Confidences and thresholds are reals, without rounding.
  `SocialDistancing.SquaredDistance` is the integer square of the distance, and no
  square root is taken. The link to the root is stated by
  `BelowMatchesRootComparison`.
- `SocialDistancing.SquaredDistance`: the detection centre is an integer field of the
  detection. The codec that computes it from the polygon is not part of this model.
- BrainFrame API calls: the connection, the check that a stream is configured, and
  the infinite loop over the zone status stream. `CheckPacket` models the body for
  one packet.
- Output and the CLI. The printed message becomes a `Violation` value. `argparse`,
  the default `--min-distance 100` and `main` are not modelled. The guard at
  scripts/social_distancing.py:103 compares `__name__` with `"main"`, not
  `"__main__"`, so `main` never runs when the script is executed. That guard is CLI
  plumbing and is not modelled.
- `SocialDistancing.CheckPacket`: the order in which streams are visited only
  affects the order of printed lines. The result is a map without order.
- The `if len(detections) <= 0: pass` branch does nothing. It is covered by
  `FindViolation` reporting nothing for fewer than two detections.
- The other demo scripts (getting started, crawling an image directory, sorting
  images by car colour, using the REST API, WeChat notifications) are remote API
  calls, file I/O and messaging. They are not modelled.
- The two fake bounding-box capsules return a hard-coded box and do nothing else. Only
  their box is used, as a test vector in `FakeBoxExamples`.
- Pipeline composition, batch scheduling and zone-alarm evaluation happen inside
  the BrainFrame server and the `vcap` library. None of the modelled files contains
  them.
- Both face capsules declare the name "face_detector" (capsules/detector_face/capsule.py:67),
  so the names are not unique. The model records both declarations as written.
- A detection polygon in the source may have any non-empty list of vertices. The
  model does not require the three or more vertices of a true polygon.
