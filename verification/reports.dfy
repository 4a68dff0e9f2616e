/**
 The report-job skeleton (base_report.js): the `ReportConfig` tagged union,
 the defaults of the abstract `Report` class, and the generate, check-ready,
 fetch lifecycle its doc comments describe, driven one event at a time.

 JavaScript subclassing is modelled by `Overrides`: a concrete report either
 supplies a behaviour or keeps the base class default.
 */
module Reports {
  import opened Wrappers
  import opened Profiles

  /** A configuration object defined by another library (the DV360 request
      body, the SA360 report request, the Google Ads and YouTube queries);
      its contents are not part of this model. */
  type Opaque = map<string, string>

  datatype CmReportConfig = CmReportConfig(accountId: string, profileId: string, reportId: string)

  datatype Dv360ReportConfig = Dv360ReportConfig(queryId: string, requestBody: Option<Opaque>)

  datatype AdsReportConfig = AdsReportConfig(
    developerToken: string,
    customerId: Option<string>,
    loginCustomerId: Option<string>,
    reportQuery: Option<Opaque>)

  datatype YouTubeReportConfig = YouTubeReportConfig(target: string, resultLimit: Option<int>, reportQuery: Opaque)

  /** `ReportConfig`: `{target, config}` with one payload type per target. */
  datatype ReportConfig =
    | CM(cm: CmReportConfig)
    | DV360(dv360: Dv360ReportConfig)
    | SA360(sa360: Opaque)
    | ADS(ads: AdsReportConfig)
    | YT(youtube: YouTubeReportConfig)

  const Targets: seq<string> := ["CM", "DV360", "SA360", "ADS", "YT"]

  /** The `target` tag of a configuration. */
  function Target(config: ReportConfig): string {
    match config
    case CM(_) => "CM"
    case DV360(_) => "DV360"
    case SA360(_) => "SA360"
    case ADS(_) => "ADS"
    case YT(_) => "YT"
  }

  /** The five targets are distinct, every configuration carries one of
      them, and the tag alone tells which payload type it carries. */
  lemma TargetIdentifiesVariant(a: ReportConfig, b: ReportConfig)
    ensures |Targets| == 5
    ensures forall i, j :: 0 <= i < j < |Targets| ==> Targets[i] != Targets[j]
    ensures Target(a) in Targets
    ensures Target(a) == Target(b) <==>
      (a.CM? && b.CM?) || (a.DV360? && b.DV360?) || (a.SA360? && b.SA360?) || (a.ADS? && b.ADS?) || (a.YT? && b.YT?)
  {
    assert "CM"[0] != "DV360"[0] && "DV360"[0] != "SA360"[0] && "SA360"[0] != "ADS"[0] && "ADS"[0] != "YT"[0];
    assert "CM"[0] != "SA360"[0] && "CM"[0] != "ADS"[0] && "CM"[0] != "YT"[0];
    assert "DV360"[0] != "ADS"[0] && "DV360"[0] != "YT"[0] && "SA360"[0] != "YT"[0];
  }

  /** What the constructor stores: the given configuration, or `{}`. */
  datatype StoredConfig = Configured(config: ReportConfig) | EmptyConfig

  datatype SchemaField = SchemaField(name: string, kind: string)

  /** A BigQuery load schema; its contents are not part of this model. */
  datatype TableSchema = TableSchema(fields: seq<SchemaField>)

  /** The behaviours a concrete report may override; `None` keeps the base
      class default. */
  datatype Overrides = Overrides(
    isFatalError: Option<string -> bool>,
    schema: Option<TableSchema>,
    isAsynchronous: Option<bool>)

  /** A report with no overrides behaves as the base class. */
  const BaseBehaviour: Overrides := Overrides(None, None, None)

  datatype Report = Report(config: StoredConfig, overrides: Overrides)

  /** `new Report(config)`: `this.config = config || {}`. */
  function NewReport(config: Option<ReportConfig>, overrides: Overrides): (r: Report)
    ensures config.Some? ==> r.config == Configured(config.value)
    ensures config.None? ==> r.config == EmptyConfig
  {
    Report(if config.Some? then Configured(config.value) else EmptyConfig, overrides)
  }

  function IsFatalError(report: Report, message: string): bool {
    match report.overrides.isFatalError
    case None => false
    case Some(classify) => classify(message)
  }

  const UnimplementedError: string := "Unimplemented method."

  function GenerateSchema(report: Report): Result<TableSchema, string> {
    match report.overrides.schema
    case None => Failure(UnimplementedError)
    case Some(schema) => Success(schema)
  }

  function IsAsynchronous(report: Report): bool {
    match report.overrides.isAsynchronous
    case None => true
    case Some(asynchronous) => asynchronous
  }

  /** The base class: no error is fatal, the report is asynchronous, and
      asking it for a schema fails. */
  lemma BaseReportDefaults(config: Option<ReportConfig>, message: string)
    ensures !IsFatalError(NewReport(config, BaseBehaviour), message)
    ensures IsAsynchronous(NewReport(config, BaseBehaviour))
    ensures GenerateSchema(NewReport(config, BaseBehaviour)) == Failure(UnimplementedError)
  {
  }

  // ---------------------------------------------------------------------
  // The report lifecycle

  /** The information `generate` returns about the external job. */
  type JobInfo = map<string, string>

  datatype JobState =
    | Created
    | Pending(job: JobInfo)
    | Ready(job: JobInfo)
    | Done(content: string)
    | Failed(message: string, fatal: bool)

  /** The answer of one call of the report's interface, or a retry. */
  datatype Event =
    | Generate(generated: Result<JobInfo, string>)
    | CheckReady(ready: Result<bool, string>)
    | GetContent(content: Result<string, string>)
    | Retry

  /** One step of the lifecycle. `None` means the event is not allowed in
      that state. An asynchronous report goes from generation to waiting on
      its status; a synchronous one is ready at once. Every failure is
      classified by `IsFatalError`, and only a non-fatal one may be retried. */
  function Step(report: Report, state: JobState, event: Event): (next: Option<JobState>)
    ensures next.Some? && next.value.Done? ==> state.Ready? && event == GetContent(Success(next.value.content))
    ensures next.Some? && next.value.Ready? && IsAsynchronous(report) ==>
      state.Pending? && event == CheckReady(Success(true))
    ensures next.Some? && next.value.Failed? ==> next.value.fatal == IsFatalError(report, next.value.message)
    ensures state.Failed? && state.fatal ==> next.None?
  {
    match (state, event)
    case (Created, Generate(Success(job))) =>
      Some(if IsAsynchronous(report) then Pending(job) else Ready(job))
    case (Pending(job), CheckReady(Success(ready))) =>
      Some(if ready then Ready(job) else Pending(job))
    case (Ready(_), GetContent(Success(content))) => Some(Done(content))
    case (Created, Generate(Failure(m))) => Some(Failed(m, IsFatalError(report, m)))
    case (Pending(_), CheckReady(Failure(m))) => Some(Failed(m, IsFatalError(report, m)))
    case (Ready(_), GetContent(Failure(m))) => Some(Failed(m, IsFatalError(report, m)))
    case (Failed(_, false), Retry) => Some(Created)
    case _ => None
  }

  /** The state after a sequence of events, if every event is allowed. */
  function Run(report: Report, state: JobState, events: seq<Event>): Option<JobState>
    decreases |events|
  {
    if |events| == 0 then Some(state)
    else
      match Step(report, state, events[0])
      case None => None
      case Some(next) => Run(report, next, events[1..])
  }

  /** Reaching `Done(c)` from any unfinished state takes a successful
      content fetch. */
  lemma {:induction false} DoneNeedsFetch(report: Report, state: JobState, events: seq<Event>, c: string)
    requires !state.Done?
    requires Run(report, state, events) == Some(Done(c))
    ensures exists k :: 0 <= k < |events| && events[k] == GetContent(Success(c))
    decreases |events|
  {
    var next := Step(report, state, events[0]).value;
    if events[0] != GetContent(Success(c)) {
      DoneNeedsFetch(report, next, events[1..], c);
      var k :| 0 <= k < |events[1..]| && events[1..][k] == GetContent(Success(c));
      assert events[k + 1] == GetContent(Success(c));
    }
  }

  /** For an asynchronous report, content is fetched only after a status
      check has reported the report ready. */
  lemma {:induction false} AsyncFetchFollowsReadyCheck(report: Report, state: JobState, events: seq<Event>, c: string)
    requires IsAsynchronous(report)
    requires !state.Ready? && !state.Done?
    requires Run(report, state, events) == Some(Done(c))
    ensures exists i, k :: 0 <= i < k < |events|
                           && events[i] == CheckReady(Success(true))
                           && events[k] == GetContent(Success(c))
    decreases |events|
  {
    var next := Step(report, state, events[0]).value;
    if next.Ready? {
      assert events[0] == CheckReady(Success(true));
      DoneNeedsFetch(report, next, events[1..], c);
      var k :| 0 <= k < |events[1..]| && events[1..][k] == GetContent(Success(c));
      assert events[k + 1] == GetContent(Success(c));
    } else {
      AsyncFetchFollowsReadyCheck(report, next, events[1..], c);
      var i, k :| 0 <= i < k < |events[1..]|
                  && events[1..][i] == CheckReady(Success(true))
                  && events[1..][k] == GetContent(Success(c));
      assert events[i + 1] == CheckReady(Success(true));
      assert events[k + 1] == GetContent(Success(c));
    }
  }

  /** A synchronous report answers right after generation, without any
      status check. */
  lemma SyncAnswersDirectly(report: Report, job: JobInfo, c: string)
    requires !IsAsynchronous(report)
    ensures Run(report, Created, [Generate(Success(job)), GetContent(Success(c))]) == Some(Done(c))
  {
    var events := [Generate(Success(job)), GetContent(Success(c))];
    assert Step(report, Created, events[0]) == Some(Ready(job));
    assert Step(report, Ready(job), events[1..][0]) == Some(Done(c));
    assert events[1..][1..] == [];
    assert Run(report, Done(c), events[1..][1..]) == Some(Done(c));
    assert Run(report, Ready(job), events[1..]) == Some(Done(c));
  }

  /** With the base class's classifier every failure can be retried. */
  lemma BaseFailuresAreRetryable(config: Option<ReportConfig>, state: JobState, event: Event)
    requires Step(NewReport(config, BaseBehaviour), state, event).Some?
    requires Step(NewReport(config, BaseBehaviour), state, event).value.Failed?
    ensures Step(NewReport(config, BaseBehaviour), Step(NewReport(config, BaseBehaviour), state, event).value, Retry)
            == Some(Created)
  {
  }

  /** The readiness implied by the documented outcomes of `getReportFileUrl`
      (dfa_reporting.js): not ready while the file is processing, ready once
      it is available, and an error for any other status. */
  function FileReadiness(file: ReportFile): (ready: Result<bool, string>)
    ensures ready == Success(false) <==> file.status == Processing
    ensures ready == Success(true) <==> file.status == ReportAvailable
    ensures ready.Failure? ==> ready.error == "Unsupported report status: " + file.status
  {
    match ReportFileUrl(file)
    case Failure(e) => Failure(e)
    case Success(url) => Success(url.Some?)
  }

  /** A status check fed by the file status keeps a pending job waiting,
      makes it ready, or fails it. */
  lemma FileStatusDrivesPendingJob(report: Report, job: JobInfo, file: ReportFile)
    ensures file.status == Processing ==>
      Step(report, Pending(job), CheckReady(FileReadiness(file))) == Some(Pending(job))
    ensures file.status == ReportAvailable ==>
      Step(report, Pending(job), CheckReady(FileReadiness(file))) == Some(Ready(job))
    ensures file.status != Processing && file.status != ReportAvailable ==>
      var m := "Unsupported report status: " + file.status;
      Step(report, Pending(job), CheckReady(FileReadiness(file))) == Some(Failed(m, IsFatalError(report, m)))
  {
  }
}
