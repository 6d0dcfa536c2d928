/**
 * The outcomes of the three request handlers of the backend, each with the
 * `success` flag and the `msg` text of its JSON reply.
 */
module Responses {

  /** The cap on stored face samples per e-mail. */
  const MaxSamples: nat := 5

  function Digit(d: nat): (c: char)
    requires d < 10
    ensures '0' <= c <= '9'
  {
    "0123456789"[d]
  }

  /** The decimal spelling of `n`, as an f-string prints an int. */
  function NatToString(n: nat): (r: string)
    decreases n
    ensures |r| > 0 && forall i :: 0 <= i < |r| ==> '0' <= r[i] <= '9'
    ensures n < 10 ==> r == [Digit(n)]
  {
    if n < 10 then [Digit(n)] else NatToString(n / 10) + [Digit(n % 10)]
  }

  /** Outcome of one registration step (`POST /register`). */
  datatype RegisterResult =
    | MissingData
    | AlreadyFullyRegistered
    | NoFaceDetected
    | RegisterFailed          // an exception on the embedding path
    | FaceSaved(count: nat)   // the sample was committed; `count` samples are stored now
  {
    predicate Success() {
      FaceSaved?
    }

    /** The `completed` field of the reply. */
    predicate Completed() {
      FaceSaved? && count == MaxSamples
    }

    function Message(): string {
      match this
      case MissingData => "Missing data"
      case AlreadyFullyRegistered => "Already fully registered"
      case NoFaceDetected => "No face detected"
      case RegisterFailed => "Internal server error"
      case FaceSaved(n) =>
        if n == MaxSamples then "Registration completed"
        else "Face saved (" + NatToString(n) + "/5)"
    }
  }

  /** Outcome of a face login (`POST /login/face`). */
  datatype FaceLoginResult =
    | FaceMissingData
    | UserNotRegistered
    | FaceNotDetected
    | FaceLoginFailed         // an exception on the embedding path
    | FaceLoginSuccessful
    | FaceMismatch
  {
    predicate Success() {
      FaceLoginSuccessful?
    }

    function Message(): string {
      match this
      case FaceMissingData => "Missing data"
      case UserNotRegistered => "User not registered"
      case FaceNotDetected => "No face detected"
      case FaceLoginFailed => "Internal server error"
      case FaceLoginSuccessful => "Login successful"
      case FaceMismatch => "Face does not match"
    }
  }

  /** Outcome of a password login (`POST /login/password`). */
  datatype PasswordLoginResult =
    | MissingCredentials
    | UserNotFound
    | InvalidPassword
    | PasswordLoginSuccessful
  {
    predicate Success() {
      PasswordLoginSuccessful?
    }

    function Message(): string {
      match this
      case MissingCredentials => "Missing credentials"
      case UserNotFound => "User not found"
      case InvalidPassword => "Invalid password"
      case PasswordLoginSuccessful => "Login successful"
    }
  }
}
