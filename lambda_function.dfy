/**
 * The participation handler: validates an upload request, stores the photo,
 * matches the participant by name (text detection on a roster image) or by
 * face (comparison against three reference photos) and records the outcome.
 *
 * Every cloud service is replaced by its response, supplied in `Services`.
 * The upload, the face search and the handler return, beside their value,
 * the service calls they make in order (the text-detection call is added by
 * `Evaluate`), so the writes to the bucket and to the table are part of the
 * handler's result.
 */
module LambdaFunction {
  import opened Wrappers
  import opened Strings

  type Byte = bv8

  const BucketName := "participation-record-bucket-varun-imam-yousuf"
  const FaceImageKeys := ["faces1_Feb17.jpg", "faces2_Feb17.jpg", "faces3_Feb17.jpg"]
  const TextImageKey := "names1_Feb17.jpg"
  const TableName := "Participation-Record-Table"
  const UploadPrefix := "proj2/uploads/"
  const UploadSuffix := ".jpg"
  const ImageContentType := "image/jpeg"

  const MissingParametersMessage := "Missing required parameters"
  const NoValidTargetMessage := "No valid target face image provided"
  const SuccessMessage := "Processing completed successfully"

  /** The five fields read from the request body; each may be absent. */
  datatype Fields = Fields(
    name: Option<string>,
    email: Option<string>,
    date: Option<string>,
    base64File: Option<string>,
    targetFaceImageKey: Option<string>)

  const NoFields := Fields(None, None, None, None, None)

  /** The part of the invocation event the handler reads. */
  datatype Event = Event(body: Option<string>)

  /** A Textract block; only whether it carries a `Text` entry matters. */
  datatype Block = Block(text: Option<string>)

  /** One entry of Rekognition's `FaceMatches`. */
  datatype FaceMatch = FaceMatch(similarity: Option<real>)

  /** What a Rekognition `compare_faces` call gives back: an exception or a response. */
  datatype CompareFacesResponse =
    | CompareFailed
    | CompareResponded(faceMatches: Option<seq<FaceMatch>>)

  /**
   * The behaviour of everything outside the handler: the JSON parser (None
   * when `json.loads` raises or the body is not an object), the base64
   * decoder (None when it raises), whether the S3 and DynamoDB writes
   * succeed, Textract's blocks (None when the call raises or has no
   * `Blocks`) and Rekognition's answer for each (source, target) pair.
   */
  datatype Services = Services(
    loads: string -> Option<Fields>,
    b64decode: string -> Option<seq<Byte>>,
    putObjectSucceeds: bool,
    detectDocumentText: Option<seq<Block>>,
    compareFaces: (string, string) -> CompareFacesResponse,
    putItemSucceeds: bool)

  /** The DynamoDB item written for one request. */
  datatype Record = Record(email: string, name: string, classMeetingDate: string, participation: bool)

  /** A call the handler makes to a cloud service. */
  datatype Call =
    | PutObject(bucket: string, key: string, data: seq<Byte>, contentType: string)
    | DetectDocumentText(bucket: string, document: string)
    | CompareFaces(bucket: string, source: string, target: string)
    | PutItem(table: string, item: Record)

  /** The exceptions that end in a 500 response. */
  datatype Failure = MalformedBody | UploadFailed | PutItemFailed

  datatype Body =
    | MessageBody(message: string)
    | ResultBody(message: string, textMatch: bool, faceMatch: bool,
                 participationStatus: bool, targetKey: string, extractedText: seq<string>)
    | ErrorBody(error: Failure)

  datatype Response = Response(statusCode: int, body: Body, headers: map<string, string>)

  /** The response together with the service calls made, in order. */
  datatype Outcome = Outcome(response: Response, calls: seq<Call>)

  const CorsHeaders := map["Access-Control-Allow-Origin" := "*"]

  /** Python truthiness of an optional string: present and non-empty. */
  predicate Truthy(v: Option<string>) {
    v.Some? && v.value != ""
  }

  /**
   * The first validation test of the handler: a 400 "Missing required parameters".
   * A request that passes it has its three identity fields and an image source.
   */
  function MissingParameters(f: Fields): (missing: bool)
    ensures !missing ==> Truthy(f.name) && Truthy(f.email) && Truthy(f.date)
    ensures !missing ==> Truthy(f.base64File) || Truthy(f.targetFaceImageKey)
  {
    !(Truthy(f.name) && Truthy(f.email) && Truthy(f.date))
    || (!Truthy(f.base64File) && !Truthy(f.targetFaceImageKey))
  }

  /** The text handed to the JSON parser: the event body, or `{}` when it is absent or empty. */
  function RequestBody(ev: Event): (text: string)
    ensures Truthy(ev.body) ==> text == ev.body.value
    ensures !Truthy(ev.body) ==> text == "{}"
  {
    if Truthy(ev.body) then ev.body.value else "{}"
  }

  /** The S3 key under which an uploaded photo is stored. */
  function UploadKey(date: string, name: string): (key: string)
    ensures |key| > |UploadPrefix| + |UploadSuffix|
    ensures key[..|UploadPrefix|] == UploadPrefix
    ensures key[|key| - |UploadSuffix|..] == UploadSuffix
  {
    UploadPrefix + date + "_" + RemoveSpaces(name) + UploadSuffix
  }

  /** What `upload_file_s3` produces: the key or the exception, and the calls made. */
  datatype Upload = Upload(result: Result<string, Failure>, calls: seq<Call>)

  /** Decode the photo and store it under its upload key. */
  function UploadFileS3(base64File: string, name: string, date: string, svc: Services): (u: Upload)
    ensures u.result.Ok? <==> svc.b64decode(base64File).Some? && svc.putObjectSucceeds
    ensures u.result.Ok? ==> u.result.value == UploadKey(date, name)
    ensures u.result.Err? ==> u.result.error == UploadFailed
    ensures svc.b64decode(base64File).None? ==> u.calls == []
    ensures svc.b64decode(base64File).Some? ==>
              u.calls == [PutObject(BucketName, UploadKey(date, name), svc.b64decode(base64File).value, ImageContentType)]
  {
    match svc.b64decode(base64File)
    case None => Upload(Err(UploadFailed), [])
    case Some(data) =>
      var key := UploadKey(date, name);
      var put := PutObject(BucketName, key, data, ImageContentType);
      if svc.putObjectSucceeds then Upload(Ok(key), [put]) else Upload(Err(UploadFailed), [put])
  }

  /** The texts of the blocks that carry one, in block order. */
  function TextsOf(blocks: seq<Block>): (texts: seq<string>)
    ensures |texts| <= |blocks|
    ensures forall t :: t in texts ==> exists i :: 0 <= i < |blocks| && blocks[i].text == Some(t)
  {
    if blocks == [] then []
    else
      var rest := TextsOf(blocks[1..]);
      assert forall t :: t in rest ==> exists i :: 0 <= i < |blocks| && blocks[i].text == Some(t) by {
        forall t | t in rest ensures exists i :: 0 <= i < |blocks| && blocks[i].text == Some(t) {
          var j :| 0 <= j < |blocks[1..]| && blocks[1..][j].text == Some(t);
          assert blocks[j + 1].text == Some(t);
        }
      }
      match blocks[0].text
      case Some(t) => [t] + rest
      case None => rest
  }

  /** `extract_text_from_image`: the texts found on the roster image, or nothing when the call fails. */
  function ExtractTextFromImage(response: Option<seq<Block>>): (texts: seq<string>)
    ensures response.None? ==> texts == []
    ensures response.Some? ==> texts == TextsOf(response.value)
  {
    match response
    case None => []
    case Some(blocks) => TextsOf(blocks)
  }

  /** Whether the lower-cased name occurs in the lower-cased form of some extracted text. */
  function TextDetected(name: string, texts: seq<string>): (detected: bool)
    ensures detected <==> exists i :: 0 <= i < |texts| && Contains(Lower(texts[i]), Lower(name))
    decreases |texts|
  {
    if texts == [] then false
    else
      OccursIffContains(Lower(name), Lower(texts[0]));
      var rest := TextDetected(name, texts[1..]);
      assert rest <==> exists i :: 1 <= i < |texts| && Contains(Lower(texts[i]), Lower(name)) by {
        forall i | 1 <= i < |texts| ensures texts[i] == texts[1..][i - 1] { }
      }
      Occurs(Lower(name), Lower(texts[0])) || rest
  }

  /** `compare_faces`: whether Rekognition's answer counts as a match. */
  function FaceMatched(response: CompareFacesResponse): (matched: bool)
    ensures matched <==>
      response.CompareResponded? && response.faceMatches.Some? && response.faceMatches.value != [] &&
      forall k :: 0 <= k < |response.faceMatches.value| ==> response.faceMatches.value[k].similarity.Some?
  {
    match response
    case CompareFailed => false
    case CompareResponded(matches) =>
      if matches.None? || matches.value == [] then false
      // the similarity scores are read for logging; a missing one raises and is caught
      else forall m <- matches.value :: m.similarity.Some?
  }

  /** The result of comparing the uploaded face against reference photos, and the calls made. */
  datatype FaceSearch = FaceSearch(found: bool, calls: seq<Call>)

  /**
   * `any(compare_faces(source, key) for key in keys)`: stops at the first match,
   * so the calls made are those for a prefix of `keys`.
   */
  function AnyFaceMatch(source: string, keys: seq<string>, compare: (string, string) -> CompareFacesResponse): (s: FaceSearch)
    ensures s.found <==> exists i :: 0 <= i < |keys| && FaceMatched(compare(source, keys[i]))
    ensures |s.calls| <= |keys|
    ensures forall j :: 0 <= j < |s.calls| ==> s.calls[j] == CompareFaces(BucketName, source, keys[j])
    ensures forall j :: 0 <= j < |s.calls| - 1 ==> !FaceMatched(compare(source, keys[j]))
    ensures s.found ==> s.calls != [] && FaceMatched(compare(source, keys[|s.calls| - 1]))
    ensures !s.found ==> |s.calls| == |keys|
    decreases |keys|
  {
    if keys == [] then FaceSearch(false, [])
    else
      var call := CompareFaces(BucketName, source, keys[0]);
      if FaceMatched(compare(source, keys[0])) then FaceSearch(true, [call])
      else
        var rest := AnyFaceMatch(source, keys[1..], compare);
        assert forall i :: 1 <= i < |keys| ==> keys[i] == keys[1..][i - 1];
        FaceSearch(rest.found, [call] + rest.calls)
  }

  function ErrorResponse(e: Failure): Response {
    Response(500, ErrorBody(e), map[])
  }

  function BadRequest(message: string): Response {
    Response(400, MessageBody(message), map[])
  }

  /**
   * The part of the handler after the target key is settled: text detection,
   * face comparison, the table write and the 200 response. `prior` holds the
   * calls made before (the upload, if any).
   */
  function Evaluate(name: string, email: string, date: string, targetKey: string, svc: Services, prior: seq<Call>): (out: Outcome)
    ensures out.response.statusCode == (if svc.putItemSucceeds then 200 else 500)
    ensures |out.calls| > |prior| && out.calls[..|prior|] == prior
    ensures var last := out.calls[|out.calls| - 1];
      last.PutItem? && last.table == TableName &&
      last.item.email == email && last.item.name == name && last.item.classMeetingDate == date
    ensures out.response.statusCode == 200 ==>
      var b := out.response.body;
      && b.ResultBody?
      && b.targetKey == targetKey
      && b.participationStatus == (b.textMatch || b.faceMatch)
      && b.participationStatus == out.calls[|out.calls| - 1].item.participation
  {
    var texts := ExtractTextFromImage(svc.detectDocumentText);
    var textMatch := TextDetected(name, texts);
    var faces := AnyFaceMatch(targetKey, FaceImageKeys, svc.compareFaces);
    var status := textMatch || faces.found;
    var record := Record(email, name, date, status);
    var calls := prior + [DetectDocumentText(BucketName, TextImageKey)] + faces.calls + [PutItem(TableName, record)];
    if !svc.putItemSucceeds then Outcome(ErrorResponse(PutItemFailed), calls)
    else Outcome(Response(200, ResultBody(SuccessMessage, textMatch, faces.found, status, targetKey, texts), CorsHeaders), calls)
  }

  /** `lambda_handler`, with every branch of the source, including its second 400 branch. */
  function LambdaHandler(ev: Event, svc: Services): (out: Outcome)
    ensures out.response.statusCode in {200, 400, 500}
    ensures out.calls != [] ==> svc.loads(RequestBody(ev)).Some? && !MissingParameters(svc.loads(RequestBody(ev)).value)
  {
    match svc.loads(RequestBody(ev))
    case None => Outcome(ErrorResponse(MalformedBody), [])
    case Some(f) =>
      if MissingParameters(f) then Outcome(BadRequest(MissingParametersMessage), [])
      else if Truthy(f.base64File) then
        var up := UploadFileS3(f.base64File.value, f.name.value, f.date.value, svc);
        match up.result
        case Err(e) => Outcome(ErrorResponse(e), up.calls)
        case Ok(key) => Evaluate(f.name.value, f.email.value, f.date.value, key, svc, up.calls)
      else if !Truthy(f.targetFaceImageKey) then Outcome(BadRequest(NoValidTargetMessage), [])
      else Evaluate(f.name.value, f.email.value, f.date.value, f.targetFaceImageKey.value, svc, [])
  }
}
