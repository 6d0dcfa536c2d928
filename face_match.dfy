/**
 * The face-login decision: a probe embedding is scored against every stored
 * sample of the claimed e-mail, and the best score must reach the threshold.
 * Embeddings and the similarity score are opaque: the embedding model and
 * `cosine_sim` are supplied as oracles.
 */
module FaceMatch {
  import opened Wrappers
  import opened FaceDetection
  import opened Responses

  /** A stored or probe face embedding; its numeric contents are never inspected. */
  type Embedding = seq<real>

  /** The best score must be at least this for a login to succeed. */
  const Threshold: real := 0.75

  /** The largest element of a non-empty list of scores (Python's `max`). */
  function Max(s: seq<real>): (m: real)
    requires |s| > 0
    ensures forall k :: 0 <= k < |s| ==> s[k] <= m
    ensures exists k :: 0 <= k < |s| && s[k] == m
  {
    if |s| == 1 then s[0]
    else
      var rest := Max(s[1..]);
      assert forall k :: 1 <= k < |s| ==> s[k] == s[1..][k - 1];
      if s[0] >= rest then s[0] else rest
  }

  /** Some stored sample scores at least the threshold against `probe` ("best sample wins"). */
  predicate SomeSampleMatches(probe: Embedding, rows: seq<Embedding>, score: (Embedding, Embedding) -> real) {
    exists k :: 0 <= k < |rows| && score(probe, rows[k]) >= Threshold
  }

  /**
   * What a face login answers, given the claimed e-mail, the uploaded image,
   * the samples stored under exactly that e-mail, the embedding oracle (None
   * when extraction raises) and the score oracle. An empty file and a failed
   * extraction both raise, and answer "Internal server error".
   */
  function FaceLoginDecision(
    email: string, image: Option<Upload>, rows: seq<Embedding>,
    embed: Crop -> Option<Embedding>, score: (Embedding, Embedding) -> real): FaceLoginResult
  {
    if email == [] || image.None? then FaceMissingData
    else if rows == [] then UserNotRegistered
    else if image.value.EmptyFile? then FaceLoginFailed
    else
      match DetectFace(image.value.decoded)
      case None => FaceNotDetected
      case Some(face) =>
        match embed(face)
        case None => FaceLoginFailed
        case Some(probe) => if SomeSampleMatches(probe, rows, score) then FaceLoginSuccessful else FaceMismatch
  }

  /**
   * Without stored samples the answer is "User not registered", whatever the
   * image holds and whatever the oracles say.
   */
  lemma UnregisteredWhateverImage(
    email: string, image: Upload, other: Upload,
    embed: Crop -> Option<Embedding>, score: (Embedding, Embedding) -> real)
    requires email != []
    ensures FaceLoginDecision(email, Some(image), [], embed, score) == UserNotRegistered
    ensures FaceLoginDecision(email, Some(image), [], embed, score)
         == FaceLoginDecision(email, Some(other), [], embed, score)
  {
  }

  /**
   * Storing more samples under an e-mail that already has some never turns
   * an answer into a worse one: it stays what it was, or a mismatch becomes
   * a success.
   */
  lemma {:induction false} MoreSamplesNeverHurt(
    email: string, image: Option<Upload>, rows: seq<Embedding>, extra: seq<Embedding>,
    embed: Crop -> Option<Embedding>, score: (Embedding, Embedding) -> real)
    requires rows != []
    ensures var before := FaceLoginDecision(email, image, rows, embed, score);
            var after := FaceLoginDecision(email, image, rows + extra, embed, score);
            after == before || (before == FaceMismatch && after == FaceLoginSuccessful)
  {
    var before := FaceLoginDecision(email, image, rows, embed, score);
    if before == FaceLoginSuccessful {
      var face := DetectFace(image.value.decoded).value;
      var probe := embed(face).value;
      var k :| 0 <= k < |rows| && score(probe, rows[k]) >= Threshold;
      assert (rows + extra)[k] == rows[k];
    }
  }
}
