# Campaign Manager conversion upload and report jobs, in Dafny

This project models two pieces of the marketing-analytics activation
libraries and proves properties of the model.

1. **Campaign Manager conversion batch upload** (`DfaReporting` in
   `dfa_reporting.js`). Every input line becomes a conversion. The conversion
   merges the defaults `ordinal = time` and `timestampMicros = time * 1000`,
   the configured conversion template and the allow-listed properties of
   the line (`PICKED_PROPERTIES`). The id-type property and the custom
   variables are then set from the line. The request body carries the
   encryption info only for the `encryptedUserId` id type. The answer of
   `conversions.batchinsert` is reconciled into a `BatchResult`. That step
   produces the failed lines, the failed lines grouped by normalised error
   message, and the distinct messages. A message is normalised by
   `message.replace(/.*error: /, '')`, modelled with JavaScript's regular
   expression semantics.
2. **Profile resolution and report status** (`getProfileId`,
   `getProfileForOperation_`, and the status branch of `getReportFileUrl`).
3. **The report-job skeleton** (`base_report.js`). This covers the
   `ReportConfig` union of five targets and the defaults of the abstract
   `Report` class. It also covers the generate, check-ready, fetch lifecycle
   that the class documents, as a state machine driven by the answers of
   the report's calls. `FileReadiness` is the readiness implied by the
   documented outcomes of `getReportFileUrl`. Fed to that state machine, it
   keeps a job waiting, makes it ready, or fails it.

Remote calls, the clock and JSON parsing are parameters. The model takes the
answer of a remote call as an input value: a response, or the message of
the error it throws. It takes `new Date().getTime()` as `time`, and
`JSON.parse` as a function from line to record or error.

Files: `wrappers.dfy` (Option/Result), `error_messages.dfy` (normalisation),
`conversions.dfy` (payload building), `batch_results.dfy` (reconciliation),
`conversion_upload.dfy` (the upload closure), `profiles.dfy` (profile
resolution, report file status), `reports.dfy` (report skeleton and
lifecycle).

Edge cases of the code worth noting:

- A line whose two errors normalise to the same message is appended twice
  to that message's group (`ReconcileRepeatsLineWithinGroup`).
- A status with an empty `errors` list still fails its line, yet puts the
  line into no group and adds no message. So a batch whose only failed
  status has an empty list fails with an empty `errors`
  (`ReconcileEmptyErrorsList`).
- A response flagged as failed with no statuses leaves `errors` unset
  (`ReconcileNoStatuses`). So a failed result does not always carry an
  error message.
- Because a line can repeat within a group, a group is not always a
  sub-multiset of `failedLines`. What holds is that every grouped line is a
  failed line (`GroupsMatchErrorsAndFailedLines`), and that every error puts
  its line in its message's group (`ErrorsGroupTheirLine`).
- Profile lookup takes the first profile of the account and never rejects
  an ambiguous account (`FirstMatchingProfileWins`).

## Model

| member | source | states |
|---|---|---|
| ErrorMessages.FindFrom | marketing-analytics/activation/common-libs/nodejs-common/src/apis/dfa_reporting.js:216 | the pattern's match is the leftmost start from which `.*error: ` matches, with the greedy (longest) end; none exists exactly when no start matches |
| ErrorMessages.Normalise | marketing-analytics/activation/common-libs/nodejs-common/src/apis/dfa_reporting.js:216 | a message is changed exactly when it contains `error: `, and then it shrinks by at least the marker |
| ErrorMessages.NormaliseKeepsSuffixAfterLastMarker | marketing-analytics/activation/common-libs/nodejs-common/src/apis/dfa_reporting.js:216 | for a single-line message containing the marker, the result is the suffix after the last occurrence of the marker |
| ErrorMessages.NormaliseSingleLineRemovesMarker | marketing-analytics/activation/common-libs/nodejs-common/src/apis/dfa_reporting.js:216 | a normalised single-line message no longer contains the marker |
| ErrorMessages.NormaliseIdempotentIff | marketing-analytics/activation/common-libs/nodejs-common/src/apis/dfa_reporting.js:216 | normalising twice equals normalising once exactly when the first result has no marker |
| ErrorMessages.NormaliseSingleLineIdempotent | marketing-analytics/activation/common-libs/nodejs-common/src/apis/dfa_reporting.js:216 | normalisation is idempotent on single-line messages |
| ErrorMessages.NormaliseInvalidIdExample | marketing-analytics/activation/common-libs/nodejs-common/src/apis/dfa_reporting.js:215-216 | "400 error: INVALID_ID" normalises to "INVALID_ID": the instance-specific prefix is dropped |
| ErrorMessages.NormaliseStopsAtLineEnd | marketing-analytics/activation/common-libs/nodejs-common/src/apis/dfa_reporting.js:216 | example: `"a error: b\nerror: c"` normalises to `"b\nerror: c"`, because `.` stops at the line terminator, so the match ends on the first line |
| ErrorMessages.NormaliseSkipsLinesWithoutMarker | marketing-analytics/activation/common-libs/nodejs-common/src/apis/dfa_reporting.js:216 | example: `"b\nerror: c"` normalises to `"b\nc"`; the match begins on the first line holding the marker and earlier lines are kept, so normalising the previous example's result changes it again |
| Conversions.BuildConversionFollowsPrecedence | marketing-analytics/activation/common-libs/nodejs-common/src/apis/dfa_reporting.js:138-158 | every conversion property is chosen in this order: custom variables when configured, the id-type property from the line, an allow-listed line property, the template, the `ordinal`/`timestampMicros` defaults; the conversion has no other property |
| Conversions.IdTypeComesFromLine | marketing-analytics/activation/common-libs/nodejs-common/src/apis/dfa_reporting.js:151 | the id-type property is the line's value whatever the template holds |
| Conversions.CustomVariablesIffConfigured | marketing-analytics/activation/common-libs/nodejs-common/src/apis/dfa_reporting.js:152-156 | a conversion carries custom variables iff they are configured; the list then has the configured names' length and order, entry i being `{type: name_i, value: record[name_i]}` |
| Conversions.OnlyAllowListedPropertiesReachConversion | marketing-analytics/activation/common-libs/nodejs-common/src/apis/dfa_reporting.js:71-76 | lines that agree on `ordinal`, `timestampMicros`, `value`, `quantity`, the id-type property and the custom-variable properties give the same conversion |
| Conversions.BuildRequestBody | marketing-analytics/activation/common-libs/nodejs-common/src/apis/dfa_reporting.js:142-162 | one conversion per line in order; the body carries the configured encryption info iff the id type is `encryptedUserId` |
| BatchResults.ErrorPairs | marketing-analytics/activation/common-libs/nodejs-common/src/apis/dfa_reporting.js:214-216 | one (normalised message, line) pair per error of a failed line, in the order of the errors |
| BatchResults.GroupErrors | marketing-analytics/activation/common-libs/nodejs-common/src/apis/dfa_reporting.js:214-224 | after one failed line's errors, the groups and the distinct messages equal the reference grouping and first-occurrence deduplication of all pairs so far |
| BatchResults.ExtraFailedLines | marketing-analytics/activation/common-libs/nodejs-common/src/apis/dfa_reporting.js:205-228 | the loop produces exactly the reference summary: result false, the failed lines, the grouping by normalised message, and `errors` set iff there is at least one status |
| BatchResults.FailedIndicesAreErrored | marketing-analytics/activation/common-libs/nodejs-common/src/apis/dfa_reporting.js:210-213 | a line index is recorded as failed iff its status carries `errors`; the recorded indices are strictly ascending, so each failed line is listed once |
| BatchResults.FailedLinesAreErroredIndices | marketing-analytics/activation/common-libs/nodejs-common/src/apis/dfa_reporting.js:210-213 | `failedLines` is the sequence of lines at those indices, in the same order |
| BatchResults.DedupIsFirstOccurrenceOrder | marketing-analytics/activation/common-libs/nodejs-common/src/apis/dfa_reporting.js:209-226 | `errors` holds each normalised message exactly once, no other value, ordered by first occurrence |
| BatchResults.GroupsMatchErrorsAndFailedLines | marketing-analytics/activation/common-libs/nodejs-common/src/apis/dfa_reporting.js:209-226 | the group keys are exactly the messages in `errors`, and every grouped line is a failed line |
| BatchResults.ErrorsGroupTheirLine | marketing-analytics/activation/common-libs/nodejs-common/src/apis/dfa_reporting.js:211-222 | conversely, every error of a failed status puts that status's line in the group of the error's normalised message, and lists that message in `errors` |
| BatchResults.GroupedLinesComeFromErrors | marketing-analytics/activation/common-libs/nodejs-common/src/apis/dfa_reporting.js:211-222 | conversely, every line in the group of a message is the line of a failed status one of whose errors normalises to that message |
| BatchResults.ReportedMessagesComeFromErrors | marketing-analytics/activation/common-libs/nodejs-common/src/apis/dfa_reporting.js:214-217 | every message in `errors` is the normalised message of some error of a failed status |
| BatchResults.Reconcile | marketing-analytics/activation/common-libs/nodejs-common/src/apis/dfa_reporting.js:163-186 | `numberOfLines` is the line count; result true iff the call answered without failures, with no failure fields; a thrown remote call gives result false and `errors == [message or toString()]` only; reported failures give failed lines and groups, with `errors` unset iff there are no statuses |
| BatchResults.ReconcileTwoErrorsExample | marketing-analytics/activation/common-libs/nodejs-common/src/apis/dfa_reporting.js:205-228 | second of two lines rejected with "400 error: INVALID_ID" and "400 error: MISSING_FIELD": one failed line, one group per message, both messages in order |
| BatchResults.ReconcileRepeatsLineWithinGroup | marketing-analytics/activation/common-libs/nodejs-common/src/apis/dfa_reporting.js:214-223 | a line with two errors normalising alike appears twice in its group and once in `failedLines` |
| BatchResults.ReconcileEmptyErrorsList | marketing-analytics/activation/common-libs/nodejs-common/src/apis/dfa_reporting.js:210-226 | an empty `errors` list fails its line but adds no group and no message |
| BatchResults.ReconcileNoStatuses | marketing-analytics/activation/common-libs/nodejs-common/src/apis/dfa_reporting.js:205-228 | a failed response without statuses leaves `errors` unset |
| ConversionUpload.ParseAll | marketing-analytics/activation/common-libs/nodejs-common/src/apis/dfa_reporting.js:142-143 | all lines parse iff the result holds their records in order; otherwise the error is that of the first line that fails |
| ConversionUpload.UploadConversions | marketing-analytics/activation/common-libs/nodejs-common/src/apis/dfa_reporting.js:138-186 | the call is rejected iff some line fails to parse, and then with the parse error of the first such line; otherwise it sends one conversion per line to the configured profile, with the configured encryption info iff the id type is `encryptedUserId`, and returns the reconciled result |
| Profiles.ProfilesOf | marketing-analytics/activation/common-libs/nodejs-common/src/apis/dfa_reporting.js:109-111 | the filter keeps only profiles of the account; it is empty iff none matches; its head is the first matching listed profile |
| Profiles.GetProfileId | marketing-analytics/activation/common-libs/nodejs-common/src/apis/dfa_reporting.js:107-121 | a failed listing propagates; otherwise the id of the first profile of the account, or the "Fail to find profile" error iff none matches |
| Profiles.ProfileForOperation | marketing-analytics/activation/common-libs/nodejs-common/src/apis/dfa_reporting.js:254-258 | a truthy `profileId` is returned unchanged; else a truthy `accountId` is looked up; else the "no profileId or accountId" error |
| Profiles.ProfileListedOnlyForAccount | marketing-analytics/activation/common-libs/nodejs-common/src/apis/dfa_reporting.js:254-258 | unless the account must be looked up, the answer does not depend on the profile listing, and it succeeds iff `profileId` is truthy |
| Profiles.FirstMatchingProfileWins | marketing-analytics/activation/common-libs/nodejs-common/src/apis/dfa_reporting.js:109-119 | with two profiles of the account, the first listed one is chosen: no ambiguity error |
| Profiles.ReportFileUrl | marketing-analytics/activation/common-libs/nodejs-common/src/apis/dfa_reporting.js:305-307 | `PROCESSING` gives undefined, `REPORT_AVAILABLE` gives the `apiUrl`, and exactly the other statuses give "Unsupported report status: <status>" |
| Profiles.GetReportFileUrl | marketing-analytics/activation/common-libs/nodejs-common/src/apis/dfa_reporting.js:297-307 | a profile resolution error comes first. Otherwise `reports.files.get` is asked for the configured report and file under the resolved profile id; a failed fetch is passed on, and a fetched file is classified by status |
| Profiles.ExpiredStatusIsAnError | marketing-analytics/activation/common-libs/nodejs-common/src/apis/dfa_reporting.js:307 | status "EXPIRED" is an error |
| Reports.TargetIdentifiesVariant | marketing-analytics/activation/data-tasks-coordinator/src/tasks/report/base_report.js:73-92 | exactly five distinct targets; every configuration has one, and the target alone determines the payload variant |
| Reports.NewReport | marketing-analytics/activation/data-tasks-coordinator/src/tasks/report/base_report.js:102-104 | the report stores the given configuration, or `{}` when none is given |
| Reports.BaseReportDefaults | marketing-analytics/activation/data-tasks-coordinator/src/tasks/report/base_report.js:106-165 | the base class judges no error fatal, is asynchronous, and fails `generateSchema` with "Unimplemented method." |
| Reports.Step | marketing-analytics/activation/data-tasks-coordinator/src/tasks/report/base_report.js:114-162 | content is reached only from a ready job by a successful fetch; an asynchronous job becomes ready only from a pending one by a "ready" answer; every failure is classified by `isFatalError`; a fatal failure admits no further step |
| Reports.DoneNeedsFetch | marketing-analytics/activation/data-tasks-coordinator/src/tasks/report/base_report.js:133-138 | any run that ends with content contains the successful fetch of that content |
| Reports.AsyncFetchFollowsReadyCheck | marketing-analytics/activation/data-tasks-coordinator/src/tasks/report/base_report.js:150-162 | for an asynchronous report, every run that ends with content has a "ready" status check before the fetch |
| Reports.SyncAnswersDirectly | marketing-analytics/activation/data-tasks-coordinator/src/tasks/report/base_report.js:150-162 | a synchronous report goes from generation straight to content, with no status check |
| Reports.BaseFailuresAreRetryable | marketing-analytics/activation/data-tasks-coordinator/src/tasks/report/base_report.js:106-112 | with the base class's classifier every failure may be retried from the start |
| Reports.FileReadiness | marketing-analytics/activation/common-libs/nodejs-common/src/apis/dfa_reporting.js:283-307 | the file status gives "not ready" iff `PROCESSING`, "ready" iff `REPORT_AVAILABLE`, and otherwise the unsupported-status error |
| Reports.FileStatusDrivesPendingJob | marketing-analytics/activation/data-tasks-coordinator/src/tasks/report/base_report.js:126-131 | a status check fed by the file status keeps a pending job waiting, makes it ready, or fails it with the unsupported-status error |

## Left out

- Remote calls and authentication are left out: `AuthClient`, the `googleapis` client, `conversions.batchinsert`, `userProfiles.list`, `reports.run`, `reports.files.get` and `downloadReportFile`. They are external services. The model receives their answers as inputs; `reports.files.get` is a function of its request, so the request that is sent is part of the contract.
- `runReport` is left out. It is a profile resolution (modelled) followed by a remote call.
- `listUserProfiles` is left out. It only formats text.
- Logging, `API_SCOPES` and `API_VERSION` are left out. They have no behaviour.
- The `DfaReporting` constructor is left out. It only creates clients.
- `getFilterFunction` lives in utils.js, which is not part of this model. `Pick` assumes it keeps exactly the line's properties whose names are in `PICKED_PROPERTIES`.
- Line values are JSON scalars with integer numbers. Floating-point numbers and nested objects are not modelled. `time * 1000` is exact for realistic clock values.
- JavaScript object property order is not modelled. Conversions and groups are maps.
- BatchResults.Reconcile and BatchResults.ExtraFailedLines require at most as many statuses as lines. `lines[index]` beyond the lines would give `undefined`, and this is not modelled.
- BatchResults.ExtraFailedLines treats `groupedFailed` as a plain dictionary. In the source, a normalised message equal to an `Object.prototype` property name (such as `constructor`) looks up an inherited value, and the `push` on it throws a `TypeError` inside the upload's `try` (dfa_reporting.js:168-176). The `catch` (dfa_reporting.js:181-185) absorbs it. The closure then returns `result` false and `errors` holding the `TypeError`'s message, and keeps the `failedLines` and `groupedFailed` built before the throw. The model does not have this outcome: a failed batch with both failure fields and a caught error.
- Three malformed responses are not modelled. The first two are a flagged response without `status` and an error without a `message`. Each throws a `TypeError` inside `extraFailedLines_`, within the upload's `try`. The `catch` absorbs it, as for the inherited property names above. The batch then fails with `errors` holding the `TypeError`'s message. It keeps the failure fields built before the throw: `[]` and `{}` when `status` is missing, or the lines up to the bad error. The third is an available report file without `urls`, whose `TypeError` escapes `getReportFileUrl`. The model's types always carry these values.
- Profiles.GetProfileId takes the listing as a list. An `items` property missing from the listing would throw in the source.
- `config.customVariables` set to `null` would throw in the source. It is not modelled: custom variables are either configured or absent.
- Promise sequencing is not modelled. Every call is a sequential function.
- The concrete report classes, the report task driver and BigQuery schema contents are not part of this model. `Overrides` stands for what a subclass may redefine. `Step` and `Run` model the lifecycle that the base class documents, with each call's answer given as an event.
- `generate`, `isReady` and `getContent` have empty bodies in the base class. They are modelled only through the answers a concrete report gives, which are the `Event`s.
