# Face-recognition login backend: a Dafny model

This project models the request handlers of the Flask backend in
`Backend/app.py`, which registers users by password plus up to five face
samples, and logs them in by face or by password. The handlers are modelled
over an abstract store with two tables:

- `users`: an e-mail mapped to its password;
- `embeddings`: an e-mail mapped to its stored face samples, in insertion order.

The store is the class `Store.FaceStore`, whose two `map` fields the handlers
read and write. The face detector, the embedding model and the similarity
score are oracles:

- an image is seen only through the detector's list of
  `(confidence, crop)` detections (`FaceDetection.Frame`);
- an uploaded file with no bytes is `EmptyFile`: decoding it raises, and the handler answers "Internal server error";
- a file whose bytes are not an image is `Encoded(None)`;
- the embedding model is a function `Crop -> Option<Embedding>`, where `None`
  stands for an exception raised while extracting;
- `cosine_sim` is a function `(Embedding, Embedding) -> real`.

Modules:

- `Text`: the lower-casing of the registration e-mail.
- `Responses`: the outcome of each handler, with its `success` flag and `msg` text.
- `FaceDetection`: `detect_face`, the choice of the first confident detection
  whose crop is not empty.
- `FaceMatch`: the face-login decision. A probe passes when some stored sample
  scores at least 0.75. It also holds the maximum of the score list.
- `Store`: the store class and its three handlers.
  - `Register` is one registration step. It works on copies of the two tables
    and writes them back only at the commit. So every rejection, and every
    exception while decoding or extracting, leaves the store exactly as it was.
  - `FaceLogin` collects one score per stored sample in a loop and compares
    the best score with the threshold. It is proved equal to the
    "some sample matches" decision.
  - `PasswordLogin` is a lookup followed by a comparison.

Behaviour of the code worth knowing:

- `detect_face` returns the FIRST detection, in the detector's order, whose
  confidence is strictly above 0.9 and whose crop is not empty. It does not
  compare confidences itself; which detection comes first is the detector's
  order (OpenCV's SSD output lists them by descending confidence). A confident box with an empty crop is skipped
  (`FaceDetection.SkipsNonQualifying`).
- When no face is found during registration, the connection is closed
  without a commit. So the user row inserted earlier in the same step is
  discarded, not kept.
- Registration lower-cases the e-mail, but both logins look it up exactly as
  given. An e-mail typed with any upper-case letter can register, but can
  never log in (`Store.MixedCaseEmailNeverLogsIn`).

## Model

| member | source | states |
|---|---|---|
| `Text.Lower` | Backend/app.py:125 | Keeps the length, leaves every non-letter in place, maps each upper-case letter to its lower-case letter, and the result holds no upper-case letter (so an empty e-mail stays empty). |
| `FaceDetection.FirstQualifyingFrom` | Backend/app.py:102-109 | The detection loop returns the first index at or after `from` whose confidence is > 0.9 and whose crop is non-empty, with every earlier index failing the test; None only when no index qualifies. |
| `FaceDetection.DetectFace` | Backend/app.py:91-109 | A face is returned iff the image decoded and some detection qualifies; the face is then the crop of the first qualifying detection, and it is non-empty. |
| `FaceDetection.SkipsNonQualifying` | Backend/app.py:102-108 | A leading detection that fails the test (confidence not above 0.9, or an empty crop) is skipped: the face is chosen from the rest. |
| `FaceDetection.FirstQualifyingWins` | Backend/app.py:102-108 | A qualifying first detection is the face, whatever detections follow it. |
| `Responses.NatToString` | Backend/app.py:171 | The count in "Face saved (n/5)" is spelled with decimal digits only; a count below 10 is its single digit. |
| `FaceMatch.Max` | Backend/app.py:213 | The best score is at least every score in the list and is one of them. |
| `FaceMatch.UnregisteredWhateverImage` | Backend/app.py:188-194 | With no stored samples under the e-mail, the answer is "User not registered", the same for every image. |
| `FaceMatch.MoreSamplesNeverHurt` | Backend/app.py:207-219 | Adding samples under an e-mail that already has some leaves the face-login answer as it was, or turns a mismatch into a success; a success never becomes a failure. |
| `Store.FaceStore.constructor` | Backend/app.py:35-50 | On first start, when no database file exists yet, the two tables are created empty, and the store invariant holds. |
| `Store.FaceStore.Register` | Backend/app.py:122-176 | The step returns "Missing data" iff a field is empty, and "Already fully registered" iff the lower-cased e-mail already has >= 5 samples. Otherwise it returns an internal error iff the file is empty (decoding raises) or extraction fails, and "No face detected" iff the file decodes to no image or to one without a qualifying detection. Every such rejection leaves both tables unchanged. A saved step appends exactly one sample under the lower-cased e-mail, inserts the user row only if it is absent, and reports the new count, old + 1 <= 5. No existing password ever changes, and a new user's password then logs in. The invariant (lower-case keys, samples only for existing users, at most 5 each) is preserved. |
| `Store.FaceStore.FaceLogin` | Backend/app.py:179-223 | Reads but never writes the store. The loop-and-max result equals `FaceMatch.FaceLoginDecision`, which follows the checks of app.py:185-219 in order: "Missing data", then "User not registered" for no samples under the exact e-mail, then an internal error for an empty file, then "No face detected", then an internal error if extraction fails, then success iff some stored sample scores >= 0.75. |
| `Store.FaceStore.PasswordLogin` | Backend/app.py:227-251 | "Missing credentials" iff a field is empty; "User not found" iff the exact e-mail has no row; success iff the stored password equals the supplied one; "Invalid password" otherwise. |
| `Store.MixedCaseEmailNeverLogsIn` | Backend/app.py:182-194 | In a store built by registration (e-mails lower-cased at app.py:125), an e-mail holding an upper-case letter has no samples and no user row. So face login answers "User not registered", and password login answers "User not found" (app.py:237-242). |

## Left out

- The Flask routes, CORS, JSON replies and request parsing. Inputs are plain parameters, and a form field that is absent is the empty string. An image part the framework treats as false is `None`. A JSON body that is not an object, which makes `password_login` answer "Internal server error", is not modelled.
- The SQLite connection, the schema statements and the byte blobs. The two tables are two maps, and commit and rollback become writing back, or dropping, the step's copies of the tables. Database failures are not modelled. The only "Internal server errors" modelled are an empty image file, which makes the decoder raise, and a failure while extracting an embedding.
- The OpenCV image decoding, blob creation, resizing, colour conversion and box scaling. An image is its detector output, and a crop is its pixel bytes.
- The ONNX inference session, the download of the model file and the lock that guards its one-time loading. These are file and network I/O plus a concurrency guard.
- `cosine_sim`, the L2 normalisation of embeddings and all floating-point behaviour, including NaN scores. Scores are exact reals given by an oracle.
- Concurrent requests. The cap of five samples is stated for sequential steps only. Two simultaneous registration steps for one e-mail can both pass the count check.
- The memory-debugging helper `mem()` and the diagnostic prints.
- `Frontend/login.js` and `Frontend/register.js`, the browser UI. These files are not part of this model.
- Text.Lower: lower-cases only the ASCII letters A to Z. Python's `str.lower` also folds non-ASCII letters.
