/**
 * Face selection (`detect_face`): the detector's output for a decoded image is
 * walked in order, and the crop of the first detection that is confident
 * enough and whose crop is not empty is the face.
 */
module FaceDetection {
  import opened Wrappers

  /** Detections at or below this confidence are not faces. */
  const ConfidenceFloor: real := 0.9

  /** The pixels of a box cut out of the image. */
  type Crop = seq<bv8>

  /** One detector output: its confidence and the crop of its scaled box. */
  datatype Detection = Detection(confidence: real, crop: Crop)

  /** A decoded image, seen through the detector's output for it, in the detector's order. */
  datatype Frame = Frame(detections: seq<Detection>)

  /**
   * An uploaded image file. A file with no bytes makes the decoder raise;
   * otherwise `decoded` is None when the bytes are not an image.
   */
  datatype Upload = EmptyFile | Encoded(decoded: Option<Frame>)

  predicate Qualifies(d: Detection) {
    d.confidence > ConfidenceFloor && |d.crop| > 0
  }

  /** `i` is the first index of `dets` whose detection qualifies. */
  predicate IsFirstQualifying(dets: seq<Detection>, i: int) {
    0 <= i < |dets| && Qualifies(dets[i]) && forall j :: 0 <= j < i ==> !Qualifies(dets[j])
  }

  /** The loop of `detect_face` from index `from` on: the first qualifying index, if any. */
  function FirstQualifyingFrom(dets: seq<Detection>, from: nat): (r: Option<nat>)
    requires from <= |dets|
    decreases |dets| - from
    ensures r.Some? ==>
      from <= r.value < |dets| && Qualifies(dets[r.value]) &&
      forall j :: from <= j < r.value ==> !Qualifies(dets[j])
    ensures r.None? ==> forall j :: from <= j < |dets| ==> !Qualifies(dets[j])
  {
    if from == |dets| then None
    else if Qualifies(dets[from]) then Some(from)
    else FirstQualifyingFrom(dets, from + 1)
  }

  /** The face crop of an image, or None for an undecodable image or one without a face. */
  function DetectFace(img: Option<Frame>): (face: Option<Crop>)
    ensures face.Some? <==> img.Some? && exists i :: IsFirstQualifying(img.value.detections, i)
    ensures face.Some? ==>
      exists i :: IsFirstQualifying(img.value.detections, i) && face.value == img.value.detections[i].crop
  {
    match img
    case None => None
    case Some(frame) =>
      match FirstQualifyingFrom(frame.detections, 0)
      case None => None
      case Some(i) =>
        assert IsFirstQualifying(frame.detections, i);
        Some(frame.detections[i].crop)
  }

  /**
   * A leading detection that does not qualify (too little confidence, or a
   * confident box whose crop is empty) is skipped: the face is chosen from
   * the detections after it.
   */
  lemma SkipsNonQualifying(dets: seq<Detection>)
    requires |dets| > 0 && !Qualifies(dets[0])
    ensures DetectFace(Some(Frame(dets))) == DetectFace(Some(Frame(dets[1..])))
  {
  }

  /** The first detection decides when it qualifies, whatever follows it. */
  lemma FirstQualifyingWins(d: Detection, rest: seq<Detection>)
    requires Qualifies(d)
    ensures DetectFace(Some(Frame([d] + rest))) == Some(d.crop)
  {
  }
}
