# Participation handler model

This project models the request handler of a class-participation service.
A student posts their name, email, class date and either a photo (base64) or the
key of a photo already in the bucket. The handler does four things. It validates
the request. It stores the photo under a key built from the date and the name. It
looks for the name among the texts that Textract finds on a roster image, and it
compares the photo against three reference face images with Rekognition. Then it
writes a participation record to DynamoDB and answers with the decision.

The model is in Dafny, in four files:

- `wrappers.dfy`: `Option` and `Result`.
- `strings.dfy` (module `Strings`): the Python string operations the handler uses.
  These are `str.lower()` on ASCII, `str.replace(' ', '')` and the substring test
  `sub in s`. The substring test is proved equal to a reference definition ("occurs
  at some position").
- `lambda_function.dfy` (module `LambdaFunction`): the handler itself, as pure
  functions. All cloud services (S3, Textract, Rekognition, DynamoDB) and the two
  library calls (`json.loads`, `base64.b64decode`) are given as a `Services` value
  holding their answers. The upload (`UploadFileS3`), the face search
  (`AnyFaceMatch`) and the handler return their value together with the service
  calls they make, in order. Text extraction returns only the texts; its
  `DetectDocumentText` call is added by `Evaluate`. The handler's result
  (`Outcome`) is therefore the HTTP response plus the ordered calls: `PutObject`,
  `DetectDocumentText`, `CompareFaces`, `PutItem`. Every branch of the handler is
  modelled as written. That includes the second 400 branch ("No valid target face
  image provided").
- `handler_properties.dfy` (module `HandlerProperties`): lemmas about the handler.
  They cover validation, the upload key, the key used for comparison, the
  participation decision and where it is recorded, status codes and error causes,
  and the unreachability of the second 400 branch.

The repository's infrastructure description (a CDK stack) sets a `BUCKET_NAME`
environment variable for the function. The handler ignores it and uses a
hard-coded bucket name. The model follows the handler's code.

## Model

| member | source | states |
|---|---|---|
| `Strings.LowerChar` | lambda/lambda_function.py:97 | the folded character is never an upper-case ASCII letter; other characters are unchanged; upper-case letters map to the lower-case letter at the same offset |
| `Strings.Lower` | lambda/lambda_function.py:97 | lower-casing keeps the length, turns each upper-case ASCII letter into its own lower-case letter and leaves every other character unchanged |
| `Strings.LowerCharEqualIff` | lambda/lambda_function.py:97 | two characters fold to the same character if and only if they are equal up to ASCII case |
| `Strings.LowerEqualIff` | lambda/lambda_function.py:97 | two strings lower-case to the same string if and only if they have the same length and agree at each position up to ASCII case |
| `Strings.RemoveSpaces` | lambda/lambda_function.py:28 | `name.replace(' ', '')` leaves no space, is no longer than its input and introduces no new character |
| `Strings.RemoveSpacesAppend` | lambda/lambda_function.py:28 | removing spaces distributes over concatenation, so the other characters keep their order |
| `Strings.RemoveSpacesNoSpace` | lambda/lambda_function.py:28 | a name without spaces is left unchanged |
| `Strings.RemoveSpacesIdempotent` | lambda/lambda_function.py:28 | removing spaces twice equals removing them once |
| `Strings.RemoveSpacesMultiset` | lambda/lambda_function.py:28 | exactly the spaces are dropped: every other character keeps its multiplicity, and the length shrinks by the number of spaces |
| `Strings.Occurs` | lambda/lambda_function.py:97 | Python's `sub in s`: a found substring is no longer than the string, and the empty string is always found |
| `Strings.OccursIffContains` | lambda/lambda_function.py:97 | the left-to-right search succeeds if and only if `sub` occurs at some position of `s` |
| `LambdaFunction.MissingParameters` | lambda/lambda_function.py:88 | the first validation test; a request that passes it has a non-empty name, email and date and a non-empty photo or target key (see `HandlerProperties.RejectedExactlyWhenMissing` for the 400 it causes) |
| `LambdaFunction.UploadKey` | lambda/lambda_function.py:28-29 | the key starts with `proj2/uploads/` and ends with `.jpg`; `HandlerProperties.UploadKeyShape` gives the part in between |
| `LambdaFunction.RequestBody` | lambda/lambda_function.py:80 | the parser is given the event body when it is present and non-empty, and `{}` otherwise |
| `LambdaFunction.UploadFileS3` | lambda/lambda_function.py:25-41 | the upload returns the key `UploadKey(date, name)` exactly when decoding and `put_object` both succeed, and raises otherwise; after a successful decode it makes one `put_object` of the decoded bytes under that key in the fixed bucket with content type `image/jpeg`, and it makes no call when decoding fails |
| `LambdaFunction.TextsOf` | lambda/lambda_function.py:48 | the block filter yields no more texts than blocks, and every text it yields is the `Text` of some block |
| `LambdaFunction.ExtractTextFromImage` | lambda/lambda_function.py:43-53 | a failed Textract call yields the empty list; otherwise the texts of the blocks that carry one |
| `LambdaFunction.TextDetected` | lambda/lambda_function.py:96-97 | the name matches if and only if its lower-cased form occurs in the lower-cased form of some extracted text |
| `LambdaFunction.FaceMatched` | lambda/lambda_function.py:55-73 | a comparison counts as a match if and only if the call answered with a non-empty `FaceMatches` whose entries all carry a similarity; a failed call, a missing or empty `FaceMatches`, or an entry without `Similarity` gives false |
| `LambdaFunction.AnyFaceMatch` | lambda/lambda_function.py:99 | a face match is found if and only if some reference key compares true; the comparisons are made in key order, with the uploaded key as source, and stop right after the first match; when there is no match all keys are tried |
| `LambdaFunction.Evaluate` | lambda/lambda_function.py:96-128 | after the target key is settled: 200 if and only if the table write succeeds, else 500; the earlier calls are kept in front; the last call is a `put_item` to the participation table of the request's email, name and date; a 200 body reports the target key and participation = name match OR face match, the same value that is written (details in `HandlerProperties.EvaluateCalls` and `ParticipationRecorded`) |
| `LambdaFunction.LambdaHandler` | lambda/lambda_function.py:75-132 | the status is always 200, 400 or 500, and a service is called only for a body that parsed and passed the first validation; the other properties of the handler are the `HandlerProperties` lemmas below (`RejectedExactlyWhenMissing`, `NoValidTargetUnreachable`, `SucceedsExactlyWhen`, `ComparisonTarget`, `ParticipationRecorded`) |
| `HandlerProperties.UploadKeyShape` | lambda/lambda_function.py:28-29 | the key is `proj2/uploads/`, then the date, `_`, the name without spaces and `.jpg`; its length is fixed by the date and the count of non-space characters in the name |
| `HandlerProperties.UploadKeySpaces` | lambda/lambda_function.py:28-29 | the key contains a space if and only if the date does; no space comes from the name |
| `HandlerProperties.UploadKeyIgnoresSpaces` | lambda/lambda_function.py:28 | names that differ only in spaces get the same key on the same date |
| `HandlerProperties.TextsOfAppend` | lambda/lambda_function.py:48 | the filter distributes over concatenation of block lists, so texts keep the order of their blocks |
| `HandlerProperties.TextsOfComplete` | lambda/lambda_function.py:48 | every block that carries a text contributes it to the extraction |
| `HandlerProperties.TextsOfAllText` | lambda/lambda_function.py:48 | when every block carries a text, the extraction is exactly those texts, position by position |
| `HandlerProperties.NoTextNoMatch` | lambda/lambda_function.py:51-53 | a failed or empty extraction never matches a name |
| `HandlerProperties.TextMatchNeedsLongText` | lambda/lambda_function.py:97 | a non-empty name matches only a text at least as long as the name, so the match is never trivially true |
| `HandlerProperties.TextMatchCaseInsensitive` | lambda/lambda_function.py:97 | changing the ASCII letter case of the name, or of any extracted text, does not change the text match |
| `HandlerProperties.NoValidTargetUnreachable` | lambda/lambda_function.py:88-94 | the handler never answers "No valid target face image provided"; every 400 it gives is "Missing required parameters" |
| `HandlerProperties.RejectedExactlyWhenMissing` | lambda/lambda_function.py:82-89 | once the body parses, the answer is 400 if and only if name, email or date is absent or empty, or both the photo and the target key are; such a request makes no service call |
| `HandlerProperties.EmptyBodyRejected` | lambda/lambda_function.py:80-89 | an absent or empty body is parsed as `{}` and rejected with "Missing required parameters", with no service call |
| `HandlerProperties.StatusCodes` | lambda/lambda_function.py:88-132 | 200 goes with the result body, the success message and `Access-Control-Allow-Origin: *`; 500 goes with an error body; non-200 answers carry no headers |
| `HandlerProperties.SucceedsExactlyWhen` | lambda/lambda_function.py:78-132 | the answer is 200 if and only if the body parses, validation passes, the photo (when sent) decodes and is stored, and the table write succeeds |
| `HandlerProperties.ErrorCauses` | lambda/lambda_function.py:130-132 | a 500 reports a parse failure exactly when the body does not parse; an upload failure only when a photo was sent and its decode or store failed; a table failure only when the write failed |
| `HandlerProperties.EvaluateCalls` | lambda/lambda_function.py:96-108 | after the upload calls come one text detection on the roster image, then the face comparisons, then a single `put_item` of the email, name, date and `text_match or face_match` |
| `HandlerProperties.SuccessIsEvaluate` | lambda/lambda_function.py:91-92 | a successful run passed validation and evaluated the upload key when a photo was sent, or the supplied key otherwise, after the upload calls |
| `HandlerProperties.ComparisonTarget` | lambda/lambda_function.py:91-99 | on success the reported target key is the fresh upload key when a photo was sent, and any supplied key is then ignored; otherwise it is the supplied key unchanged; every face comparison uses it as source; with a photo the first call stores it under that key |
| `HandlerProperties.ParticipationRecorded` | lambda/lambda_function.py:96-123 | on success the body carries the extracted texts, the name match, the face match and participation = name match OR face match; the last call writes that same participation for the request's email, name and date |

## Left out

- The infrastructure stack and app (`src/main/java/com/myorg/Proj3CdkStack.java`, `Proj3CdkApp.java`): they only make declarative builder calls to a provisioning library. That library is not part of this model.
- The boto3 clients are not modelled: S3 `put_object`, Textract `detect_document_text`, Rekognition `compare_faces` and DynamoDB `put_item`. Only their answers are modelled, as fields of `Services`, and their calls appear only as `Call` values in the trace. The model covers no network behaviour, retries or concurrency.
- `json.loads` and `base64.b64decode` are given functions of `Services`. A body that does not parse, or that is not a JSON object, shows up as `loads` returning `None`.
- Request fields are optional strings. A JSON field that is present but not a string (a number, say) is not modelled.
- The similarity scores, the `max` over them and `SimilarityThreshold=80` are not modelled. They are floating point, and the scores are only logged. The threshold is not recorded in the `CompareFaces` call.
- The text of exception messages (`str(e)`) is not modelled. A 500 body records only which step failed (`Failure`).
- Timing (`time.time()`) and all logging, including the `json.dumps(event)` log line, are not modelled. They do not affect results.
- `str.lower()` is modelled on ASCII letters only. Full Unicode case mapping is not modelled.
- The JSON serialisation of response bodies is not modelled. Bodies are kept as structured values.
