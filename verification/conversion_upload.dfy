/**
 The batch-upload closure returned by `getUploadConversionFn`
 (dfa_reporting.js): parse every line, build the request body, send it, and
 reconcile what the remote call gave into a `BatchResult`.

 JSON parsing is the parameter `parse` (a record, or the message of the
 error `JSON.parse` throws); the clock reading is `time`; the remote call's
 answer to the request is `outcome`.
 */
module ConversionUpload {
  import opened Wrappers
  import opened Conversions
  import opened BatchResults

  /** What is handed to `conversions.batchinsert`. */
  datatype Submission = Submission(profileId: string, requestBody: RequestBody)

  /** `lines.map(JSON.parse)`: the records of all lines, or the error of the
      first line that does not parse (the map stops at the first throw). */
  function ParseAll(lines: seq<string>, parse: string -> Result<Record, string>): (r: Result<seq<Record>, string>)
    ensures r.Success? <==> forall i :: 0 <= i < |lines| ==> parse(lines[i]).Success?
    ensures r.Success? ==>
      |r.value| == |lines| && forall i :: 0 <= i < |lines| ==> r.value[i] == parse(lines[i]).value
    ensures r.Failure? ==>
      exists i :: 0 <= i < |lines| && parse(lines[i]) == Failure(r.error)
                  && forall j :: 0 <= j < i ==> parse(lines[j]).Success?
    decreases |lines|
  {
    if |lines| == 0 then Success([])
    else
      match parse(lines[0])
      case Failure(e) => Failure(e)
      case Success(record) =>
        match ParseAll(lines[1..], parse)
        case Failure(e) =>
          ghost var i :| 0 <= i < |lines[1..]| && parse(lines[1..][i]) == Failure(e)
                        && forall j :: 0 <= j < i ==> parse(lines[1..][j]).Success?;
          assert parse(lines[i + 1]) == Failure(e);
          Failure(e)
        case Success(rest) => Success([record] + rest)
  }

  /** One call of the upload closure. A line that does not parse rejects the
      call before anything is sent (`Failure`); otherwise the batch is sent
      to the configured profile and every remote failure is absorbed into
      the returned `BatchResult`. */
  method UploadConversions(
    config: InsertConversionsConfig, lines: seq<string>, parse: string -> Result<Record, string>,
    time: int, outcome: RemoteOutcome)
    returns (r: Result<(Submission, BatchResult), string>)
    requires outcome.Responded? && outcome.hasFailures ==> |outcome.statuses| <= |lines|
    ensures r.Failure? <==> exists i :: 0 <= i < |lines| && parse(lines[i]).Failure?
    ensures r.Failure? ==> ParseAll(lines, parse).Failure? && r.error == ParseAll(lines, parse).error
    ensures r.Success? ==>
      && ParseAll(lines, parse).Success?
      && r.value.0.requestBody == BuildRequestBody(config, time, ParseAll(lines, parse).value)
    ensures r.Success? ==>
      r.value.0.requestBody.encryptionInfo
      == if config.idType == EncryptedUserId then Some(config.encryptionInfo) else None
    ensures r.Success? ==>
      && r.value.0.profileId == config.profileId
      && |r.value.0.requestBody.conversions| == |lines|
      && (forall i :: 0 <= i < |lines| ==>
            r.value.0.requestBody.conversions[i] == BuildConversion(config, time, parse(lines[i]).value))
      && r.value.1 == Reconcile(lines, outcome)
  {
    var records :- ParseAll(lines, parse);
    var submission := Submission(config.profileId, BuildRequestBody(config, time, records));
    var batchResult: BatchResult;
    match outcome {
      case Threw(message, description) =>
        batchResult := BatchResult(false, |lines|, None, None, Some([ThrownText(message, description)]));
      case Responded(hasFailures, statuses) =>
        if hasFailures {
          batchResult := ExtraFailedLines(|lines|, statuses, lines);
        } else {
          batchResult := BatchResult(true, |lines|, None, None, None);
        }
    }
    r := Success((submission, batchResult));
  }
}
