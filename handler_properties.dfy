/**
 * What the participation handler guarantees: which requests are rejected,
 * what key the photo is stored and compared under, how the participation
 * status is decided and where it is recorded.
 */
module HandlerProperties {
  import opened Wrappers
  import opened Strings
  import opened LambdaFunction

  // ---------------------------------------------------------------------
  // Upload key

  /** The key is the upload prefix, the date, `_`, the name without spaces and `.jpg`. */
  lemma UploadKeyShape(date: string, name: string)
    ensures var key := UploadKey(date, name);
      && |key| == |UploadPrefix| + |date| + 1 + (|name| - multiset(name)[' ']) + |UploadSuffix|
      && key[..|UploadPrefix|] == UploadPrefix
      && key[|key| - |UploadSuffix|..] == UploadSuffix
      && key[|UploadPrefix|..|key| - |UploadSuffix|] == date + "_" + RemoveSpaces(name)
  {
    RemoveSpacesMultiset(name);
    var key := UploadKey(date, name);
    var mid := date + "_" + RemoveSpaces(name);
    assert key == UploadPrefix + mid + UploadSuffix;
  }

  /** A space in the key can only come from the date. */
  lemma UploadKeySpaces(date: string, name: string)
    ensures ' ' in UploadKey(date, name) <==> ' ' in date
  {
    var rest := RemoveSpaces(name);
    var tail := "_" + rest + UploadSuffix;
    assert UploadKey(date, name) == (UploadPrefix + date) + tail;
    assert ' ' !in tail by {
      assert tail == ["_"[0]] + rest + UploadSuffix;
    }
  }

  /** Names that differ only in their spaces share one key on the same date. */
  lemma UploadKeyIgnoresSpaces(date: string, name: string)
    ensures UploadKey(date, name) == UploadKey(date, RemoveSpaces(name))
  {
    RemoveSpacesIdempotent(name);
  }

  // ---------------------------------------------------------------------
  // Text extraction and matching

  /** The block filter distributes over concatenation, so it keeps block order. */
  lemma {:induction false} TextsOfAppend(a: seq<Block>, b: seq<Block>)
    ensures TextsOf(a + b) == TextsOf(a) + TextsOf(b)
    decreases |a|
  {
    if a == [] {
      assert a + b == b;
    } else {
      assert (a + b)[0] == a[0];
      assert (a + b)[1..] == a[1..] + b;
      TextsOfAppend(a[1..], b);
    }
  }

  /** Every text carried by some block is extracted. */
  lemma {:induction false} TextsOfComplete(blocks: seq<Block>, i: int)
    requires 0 <= i < |blocks| && blocks[i].text.Some?
    ensures blocks[i].text.value in TextsOf(blocks)
    decreases |blocks|
  {
    if i > 0 {
      assert blocks[1..][i - 1] == blocks[i];
      TextsOfComplete(blocks[1..], i - 1);
    }
  }

  /** When every block carries a text, the extraction is exactly those texts, in order. */
  lemma {:induction false} TextsOfAllText(blocks: seq<Block>)
    requires forall i :: 0 <= i < |blocks| ==> blocks[i].text.Some?
    ensures |TextsOf(blocks)| == |blocks|
    ensures forall i :: 0 <= i < |blocks| ==> TextsOf(blocks)[i] == blocks[i].text.value
    decreases |blocks|
  {
    if blocks != [] {
      TextsOfAllText(blocks[1..]);
    }
  }

  /** A failed or empty extraction never matches a name. */
  lemma NoTextNoMatch(name: string, response: Option<seq<Block>>)
    requires response.None? || response.value == []
    ensures !TextDetected(name, ExtractTextFromImage(response))
  {
  }

  /** A non-empty name only matches a text at least as long as itself. */
  lemma TextMatchNeedsLongText(name: string, texts: seq<string>)
    requires name != "" && TextDetected(name, texts)
    ensures exists i :: 0 <= i < |texts| && 0 < |name| <= |texts[i]|
  {
    var i :| 0 <= i < |texts| && Contains(Lower(texts[i]), Lower(name));
    OccursIffContains(Lower(name), Lower(texts[i]));
  }

  /** Changing the letter case of the name or of any extracted text does not change the match. */
  lemma TextMatchCaseInsensitive(name: string, name': string, texts: seq<string>, texts': seq<string>)
    requires EqualUpToCase(name, name')
    requires |texts| == |texts'| && forall i :: 0 <= i < |texts| ==> EqualUpToCase(texts[i], texts'[i])
    ensures TextDetected(name, texts) == TextDetected(name', texts')
  {
    LowerEqualIff(name, name');
    forall i | 0 <= i < |texts| ensures Lower(texts[i]) == Lower(texts'[i]) {
      LowerEqualIff(texts[i], texts'[i]);
    }
  }

  // ---------------------------------------------------------------------
  // The handler

  /** The "No valid target face image provided" response is never produced. */
  lemma NoValidTargetUnreachable(ev: Event, svc: Services)
    ensures LambdaHandler(ev, svc).response.body != MessageBody(NoValidTargetMessage)
    ensures LambdaHandler(ev, svc).response.statusCode == 400 ==>
              LambdaHandler(ev, svc).response == BadRequest(MissingParametersMessage)
  {
  }

  /** Once the body parses, the request is rejected with 400 exactly when a required field is missing. */
  lemma RejectedExactlyWhenMissing(ev: Event, svc: Services)
    requires svc.loads(RequestBody(ev)).Some?
    ensures var out := LambdaHandler(ev, svc);
      out.response.statusCode == 400 <==> MissingParameters(svc.loads(RequestBody(ev)).value)
    ensures var out := LambdaHandler(ev, svc);
      out.response.statusCode == 400 ==> out.response == BadRequest(MissingParametersMessage) && out.calls == []
  {
  }

  /** A missing or empty body is parsed as `{}` and so rejected without any service call. */
  lemma EmptyBodyRejected(ev: Event, svc: Services)
    requires !Truthy(ev.body)
    requires svc.loads("{}") == Some(NoFields)
    ensures LambdaHandler(ev, svc) == Outcome(BadRequest(MissingParametersMessage), [])
  {
  }

  /** Only a 200 carries the result body and the CORS header; only a 500 carries an error body. */
  lemma StatusCodes(ev: Event, svc: Services)
    ensures var r := LambdaHandler(ev, svc).response;
      && (r.statusCode == 200 <==> r.body.ResultBody?)
      && (r.statusCode == 500 <==> r.body.ErrorBody?)
      && (r.statusCode == 200 ==> r.headers == CorsHeaders && r.body.message == SuccessMessage)
      && (r.statusCode != 200 ==> r.headers == map[])
  {
  }

  /** The handler answers 200 exactly when parsing, validation, the upload (if any) and the table write succeed. */
  lemma SucceedsExactlyWhen(ev: Event, svc: Services)
    ensures LambdaHandler(ev, svc).response.statusCode == 200 <==>
      && svc.loads(RequestBody(ev)).Some?
      && !MissingParameters(svc.loads(RequestBody(ev)).value)
      && (Truthy(svc.loads(RequestBody(ev)).value.base64File) ==>
            svc.b64decode(svc.loads(RequestBody(ev)).value.base64File.value).Some? && svc.putObjectSucceeds)
      && svc.putItemSucceeds
  {
  }

  /** Which exception a 500 reports. */
  lemma ErrorCauses(ev: Event, svc: Services)
    requires LambdaHandler(ev, svc).response.statusCode == 500
    ensures var e := LambdaHandler(ev, svc).response.body.error;
      && (e == MalformedBody <==> svc.loads(RequestBody(ev)).None?)
      && (e == UploadFailed ==>
            var f := svc.loads(RequestBody(ev)).value;
            Truthy(f.base64File) && (svc.b64decode(f.base64File.value).None? || !svc.putObjectSucceeds))
      && (e == PutItemFailed ==> !svc.putItemSucceeds)
  {
  }

  /** The calls made by the part of the handler after the target key is settled. */
  lemma EvaluateCalls(name: string, email: string, date: string, targetKey: string, svc: Services, prior: seq<Call>)
    ensures var out := Evaluate(name, email, date, targetKey, svc, prior);
      var faces := AnyFaceMatch(targetKey, FaceImageKeys, svc.compareFaces);
      && |out.calls| == |prior| + 2 + |faces.calls|
      && out.calls[..|prior|] == prior
      && out.calls[|prior|] == DetectDocumentText(BucketName, TextImageKey)
      && out.calls[|prior| + 1..|out.calls| - 1] == faces.calls
      && out.calls[|out.calls| - 1] ==
           PutItem(TableName, Record(email, name, date, TextDetected(name, ExtractTextFromImage(svc.detectDocumentText)) || faces.found))
  {
    var out := Evaluate(name, email, date, targetKey, svc, prior);
    var faces := AnyFaceMatch(targetKey, FaceImageKeys, svc.compareFaces);
    var record := Record(email, name, date, TextDetected(name, ExtractTextFromImage(svc.detectDocumentText)) || faces.found);
    assert out.calls == prior + [DetectDocumentText(BucketName, TextImageKey)] + faces.calls + [PutItem(TableName, record)];
  }

  /** The key the faces are compared under: the upload key when a photo is sent, the supplied key otherwise. */
  function ChosenKey(f: Fields): string
    requires !MissingParameters(f)
  {
    if Truthy(f.base64File) then UploadKey(f.date.value, f.name.value) else f.targetFaceImageKey.value
  }

  /** The calls made before evaluation: the photo upload, if a photo is sent. */
  function UploadCalls(f: Fields, svc: Services): seq<Call>
    requires !MissingParameters(f)
  {
    if Truthy(f.base64File) then UploadFileS3(f.base64File.value, f.name.value, f.date.value, svc).calls else []
  }

  /** A successful run is the evaluation step applied to the chosen key after the upload calls. */
  lemma SuccessIsEvaluate(ev: Event, svc: Services)
    requires LambdaHandler(ev, svc).response.statusCode == 200
    ensures svc.loads(RequestBody(ev)).Some? && !MissingParameters(svc.loads(RequestBody(ev)).value)
    ensures var f := svc.loads(RequestBody(ev)).value;
      LambdaHandler(ev, svc) == Evaluate(f.name.value, f.email.value, f.date.value, ChosenKey(f), svc, UploadCalls(f, svc))
  {
  }

  /**
   * On success, the face comparison used the freshly uploaded key when a photo
   * was sent and the supplied key otherwise, and every comparison had that key
   * as its source.
   */
  lemma ComparisonTarget(ev: Event, svc: Services)
    requires LambdaHandler(ev, svc).response.statusCode == 200
    ensures var f := svc.loads(RequestBody(ev)).value;
      var out := LambdaHandler(ev, svc);
      var key := out.response.body.targetKey;
      && key == ChosenKey(f)
      && (forall c :: c in out.calls && c.CompareFaces? ==> c.source == key)
      && (Truthy(f.base64File) ==>
            out.calls[0] == PutObject(BucketName, key, svc.b64decode(f.base64File.value).value, ImageContentType))
  {
    SuccessIsEvaluate(ev, svc);
    var f := svc.loads(RequestBody(ev)).value;
    var key := ChosenKey(f);
    var prior := UploadCalls(f, svc);
    var out := LambdaHandler(ev, svc);
    EvaluateCalls(f.name.value, f.email.value, f.date.value, key, svc, prior);
    var faces := AnyFaceMatch(key, FaceImageKeys, svc.compareFaces);
    forall c | c in out.calls && c.CompareFaces? ensures c.source == key {
      var k :| 0 <= k < |out.calls| && out.calls[k] == c;
      assert |prior| + 1 <= k < |out.calls| - 1;
      assert c == faces.calls[k - |prior| - 1];
    }
  }

  /**
   * On success, the participation status is the name match OR the face match,
   * and the same status is in the response body and in the item written last.
   */
  lemma ParticipationRecorded(ev: Event, svc: Services)
    requires LambdaHandler(ev, svc).response.statusCode == 200
    ensures var f := svc.loads(RequestBody(ev)).value;
      var out := LambdaHandler(ev, svc);
      var b := out.response.body;
      && b.extractedText == ExtractTextFromImage(svc.detectDocumentText)
      && (b.textMatch <==> exists i :: 0 <= i < |b.extractedText| && Contains(Lower(b.extractedText[i]), Lower(f.name.value)))
      && (b.faceMatch <==> exists i :: 0 <= i < |FaceImageKeys| && FaceMatched(svc.compareFaces(b.targetKey, FaceImageKeys[i])))
      && b.participationStatus == (b.textMatch || b.faceMatch)
      && out.calls != []
      && out.calls[|out.calls| - 1] ==
           PutItem(TableName, Record(f.email.value, f.name.value, f.date.value, b.participationStatus))
  {
    SuccessIsEvaluate(ev, svc);
    var f := svc.loads(RequestBody(ev)).value;
    EvaluateCalls(f.name.value, f.email.value, f.date.value, ChosenKey(f), svc, UploadCalls(f, svc));
  }
}
