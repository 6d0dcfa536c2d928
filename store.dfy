/**
 * The backend's request handlers over its two tables: `users` (e-mail to
 * password) and `embeddings` (e-mail to the face samples stored for it, in
 * insertion order).
 */
module Store {
  import opened Wrappers
  import opened Text
  import opened FaceDetection
  import opened FaceMatch
  import opened Responses

  /** The rows of the `embeddings` table whose e-mail is `email`. */
  function RowsOf(embeddings: map<string, seq<Embedding>>, email: string): seq<Embedding> {
    if email in embeddings then embeddings[email] else []
  }

  /**
   * What sequential registration steps keep: every stored e-mail is lower
   * case, every e-mail with samples has a user row, and no e-mail has more
   * than MaxSamples samples.
   */
  ghost predicate StoreInvariant(users: map<string, string>, embeddings: map<string, seq<Embedding>>) {
    && (forall e :: e in users ==> IsLower(e))
    && (forall e :: e in embeddings ==> e in users && 0 < |embeddings[e]| <= MaxSamples)
  }

  class FaceStore {
    var users: map<string, string>
    var embeddings: map<string, seq<Embedding>>

    ghost predicate Valid()
      reads this
    {
      StoreInvariant(users, embeddings)
    }

    /** The two tables as created on first start, when no database file exists yet: both empty. */
    constructor ()
      ensures Valid()
      ensures users == map[] && embeddings == map[]
    {
      users := map[];
      embeddings := map[];
    }

    function Rows(email: string): seq<Embedding>
      reads this
    {
      RowsOf(embeddings, email)
    }

    /**
     * One registration step. The e-mail is lower-cased; the step runs in one
     * transaction on copies of the two tables that are written back only at
     * the commit, so every rejection leaves the store as it was.
     */
    method Register(emailField: string, password: string, image: Option<Upload>, embed: Crop -> Option<Embedding>)
      returns (result: RegisterResult)
      modifies this
      ensures old(Valid()) ==> Valid()
      ensures result == MissingData <==> emailField == [] || password == [] || image.None?
      ensures result == AlreadyFullyRegistered <==>
        emailField != [] && password != [] && image.Some? &&
        |old(Rows(Lower(emailField)))| >= MaxSamples
      ensures result == NoFaceDetected <==>
        emailField != [] && password != [] && image.Some? &&
        |old(Rows(Lower(emailField)))| < MaxSamples &&
        image.value.Encoded? && DetectFace(image.value.decoded).None?
      ensures result == RegisterFailed <==>
        emailField != [] && password != [] && image.Some? &&
        |old(Rows(Lower(emailField)))| < MaxSamples &&
        (image.value.EmptyFile? ||
         (DetectFace(image.value.decoded).Some? && embed(DetectFace(image.value.decoded).value).None?))
      ensures !result.FaceSaved? ==> users == old(users) && embeddings == old(embeddings)
      ensures result.FaceSaved? ==>
        var email := Lower(emailField);
        && image.Some? && image.value.Encoded? && DetectFace(image.value.decoded).Some?
        && embed(DetectFace(image.value.decoded).value).Some?
        && embeddings == old(embeddings)[email := old(Rows(email)) + [embed(DetectFace(image.value.decoded).value).value]]
        && users == (if email in old(users) then old(users) else old(users)[email := password])
        && result.count == |old(Rows(email))| + 1 <= MaxSamples
      ensures forall e :: e in old(users) ==> e in users && users[e] == old(users)[e]
      ensures result.FaceSaved? && Lower(emailField) !in old(users) ==>
        PasswordLogin(Lower(emailField), password) == PasswordLoginSuccessful
    {
      var email := Lower(emailField);
      if email == [] || password == [] || image.None? {
        return MissingData;
      }
      var txUsers, txEmbeddings := users, embeddings;
      if |RowsOf(txEmbeddings, email)| >= MaxSamples {
        return AlreadyFullyRegistered;
      }
      if email !in txUsers {
        txUsers := txUsers[email := password];
      }
      if image.value.EmptyFile? {
        return RegisterFailed;
      }
      var face := DetectFace(image.value.decoded);
      if face.None? {
        return NoFaceDetected;
      }
      var sample := embed(face.value);
      if sample.None? {
        return RegisterFailed;
      }
      txEmbeddings := txEmbeddings[email := RowsOf(txEmbeddings, email) + [sample.value]];
      var count := |RowsOf(txEmbeddings, email)|;
      // commit
      users, embeddings := txUsers, txEmbeddings;
      result := FaceSaved(count);
    }

    /**
     * A face login: the samples are looked up under the e-mail exactly as
     * given, one score is collected per sample, and the best one decides.
     * The store is only read.
     */
    method FaceLogin(email: string, image: Option<Upload>, embed: Crop -> Option<Embedding>, score: (Embedding, Embedding) -> real)
      returns (result: FaceLoginResult)
      ensures result == FaceLoginDecision(email, image, Rows(email), embed, score)
    {
      if email == [] || image.None? {
        return FaceMissingData;
      }
      var rows := Rows(email);
      if rows == [] {
        return UserNotRegistered;
      }
      if image.value.EmptyFile? {
        return FaceLoginFailed;
      }
      var face := DetectFace(image.value.decoded);
      if face.None? {
        return FaceNotDetected;
      }
      var probe := embed(face.value);
      if probe.None? {
        return FaceLoginFailed;
      }
      var scores: seq<real> := [];
      for i := 0 to |rows|
        invariant |scores| == i
        invariant forall k :: 0 <= k < i ==> scores[k] == score(probe.value, rows[k])
      {
        scores := scores + [score(probe.value, rows[i])];
      }
      var best := Max(scores);
      if best >= Threshold {
        var k :| 0 <= k < |scores| && scores[k] == best;
        assert score(probe.value, rows[k]) >= Threshold;
        result := FaceLoginSuccessful;
      } else {
        assert forall k :: 0 <= k < |rows| ==> score(probe.value, rows[k]) <= best;
        result := FaceMismatch;
      }
    }

    /** A password login: the user row is looked up under the e-mail exactly as given. */
    function PasswordLogin(email: string, password: string): (r: PasswordLoginResult)
      reads this
      ensures r == MissingCredentials <==> email == [] || password == []
      ensures r == UserNotFound <==> email != [] && password != [] && email !in users
      ensures r == PasswordLoginSuccessful <==>
        email != [] && password != [] && email in users && users[email] == password
    {
      if email == [] || password == [] then MissingCredentials
      else if email !in users then UserNotFound
      else if users[email] != password then InvalidPassword
      else PasswordLoginSuccessful
    }
  }

  /**
   * Registration stores e-mails lower-cased while both logins look them up
   * as given: an e-mail holding an upper-case letter never logs in, by
   * password or by face.
   */
  lemma MixedCaseEmailNeverLogsIn(
    store: FaceStore, email: string, password: string, image: Option<Upload>,
    embed: Crop -> Option<Embedding>, score: (Embedding, Embedding) -> real)
    requires store.Valid() && !IsLower(email)
    ensures email != [] && password != [] ==> store.PasswordLogin(email, password) == UserNotFound
    ensures store.Rows(email) == []
    ensures email != [] && image.Some? ==>
      FaceLoginDecision(email, image, store.Rows(email), embed, score) == UserNotRegistered
  {
  }

  /**
   * An enrolment scenario: five samples of one face complete the
   * registration, and a sixth step is refused before its image is looked at,
   * keeping the first password.
   */
  method EnrolFiveThenFull(email: string, face: Crop, sample: Embedding)
    requires email != [] && IsLower(email) && |face| > 0
  {
    var store := new FaceStore();
    var image := Encoded(Some(Frame([Detection(0.95, face)])));
    var embed := (c: Crop) => Some(sample);
    LowerOfLower(email);
    assert Lower(email) == email;
    FirstQualifyingWins(Detection(0.95, face), []);
    assert DetectFace(image.decoded) == Some(face);
    var r := store.Register(email, "pw", Some(image), embed);
    assert r == FaceSaved(1) && !r.Completed();
    assert |store.Rows(email)| == 1 && store.users[email] == "pw";
    r := store.Register(email, "other", Some(image), embed);
    assert r == FaceSaved(2);
    assert |store.Rows(email)| == 2 && store.users[email] == "pw";
    r := store.Register(email, "pw", Some(image), embed);
    assert |store.Rows(email)| == 3;
    r := store.Register(email, "pw", Some(image), embed);
    assert |store.Rows(email)| == 4;
    r := store.Register(email, "pw", Some(image), embed);
    assert r == FaceSaved(5) && r.Completed();
    assert |store.Rows(email)| == 5 && store.users[email] == "pw";
    r := store.Register(email, "pw", Some(EmptyFile), embed);
    assert r == AlreadyFullyRegistered;
    assert store.users[email] == "pw";
  }
}
