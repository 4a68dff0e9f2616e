/**
 Campaign Manager profile resolution and report-file status
 (dfa_reporting.js: `getProfileId`, `getProfileForOperation_`,
 `getReportFileUrl`). The remote calls `userProfiles.list` and
 `reports.files.get` are represented by their answers: a value, or the
 message of the error they throw.
 */
module Profiles {
  import opened Wrappers

  /** A `UserProfile` item of `userProfiles.list`. */
  datatype UserProfile = UserProfile(profileId: string, userName: string, accountId: string, accountName: string)

  /** The `{accountId, profileId}` part of a report configuration. */
  datatype OperationConfig = OperationConfig(accountId: Option<string>, profileId: Option<string>)

  /** JavaScript truthiness of an optional string: present and not empty. */
  predicate Truthy(v: Option<string>) {
    v.Some? && v.value != ""
  }

  const NoIdentifierError: string := "There is no profileId or accountId in the configuration."

  function NoProfileError(accountId: string): string {
    "Fail to find profile of current user for CM account " + accountId
  }

  /** `items.filter((profile) => profile.accountId === accountId)`. */
  function ProfilesOf(items: seq<UserProfile>, accountId: string): (r: seq<UserProfile>)
    ensures forall p :: p in r ==> p in items && p.accountId == accountId
    ensures |r| == 0 <==> forall i :: 0 <= i < |items| ==> items[i].accountId != accountId
    ensures |r| > 0 ==> exists i :: 0 <= i < |items| && r[0] == items[i]
                                 && forall j :: 0 <= j < i ==> items[j].accountId != accountId
    decreases |items|
  {
    if |items| == 0 then []
    else
      var rest := ProfilesOf(items[1..], accountId);
      if items[0].accountId == accountId then
        [items[0]] + rest
      else
        assert forall i :: 1 <= i < |items| ==> items[i] == items[1..][i - 1];
        rest
  }

  /** `getProfileId`: the profile id of the FIRST listed profile of the
      account; later matches are ignored. A failed listing propagates. */
  function GetProfileId(accountId: string, listing: Result<seq<UserProfile>, string>): (r: Result<string, string>)
    ensures listing.Failure? ==> r == Failure(listing.error)
    ensures listing.Success? ==>
      (r.Failure? <==> forall i :: 0 <= i < |listing.value| ==> listing.value[i].accountId != accountId)
    ensures listing.Success? && r.Failure? ==> r.error == NoProfileError(accountId)
    ensures listing.Success? && r.Success? ==>
      exists i :: 0 <= i < |listing.value|
                  && listing.value[i].accountId == accountId
                  && r.value == listing.value[i].profileId
                  && forall j :: 0 <= j < i ==> listing.value[j].accountId != accountId
  {
    match listing
    case Failure(e) => Failure(e)
    case Success(items) =>
      var profiles := ProfilesOf(items, accountId);
      if |profiles| == 0 then Failure(NoProfileError(accountId))
      else
        assert profiles[0] in profiles;
        Success(profiles[0].profileId)
  }

  /** `getProfileForOperation_`: a truthy `profileId` is the answer; else a
      truthy `accountId` is looked up; else the configuration is rejected. */
  function ProfileForOperation(config: OperationConfig, listing: Result<seq<UserProfile>, string>): (r: Result<string, string>)
    ensures Truthy(config.profileId) ==> r == Success(config.profileId.value)
    ensures !Truthy(config.profileId) && Truthy(config.accountId) ==> r == GetProfileId(config.accountId.value, listing)
    ensures !Truthy(config.profileId) && !Truthy(config.accountId) ==> r == Failure(NoIdentifierError)
  {
    if Truthy(config.profileId) then Success(config.profileId.value)
    else if Truthy(config.accountId) then GetProfileId(config.accountId.value, listing)
    else Failure(NoIdentifierError)
  }

  /** The profile listing is consulted only when there is no truthy
      `profileId` but a truthy `accountId`: otherwise any listing (the
      remote call is not made) gives the same answer. */
  lemma ProfileListedOnlyForAccount(config: OperationConfig, l1: Result<seq<UserProfile>, string>, l2: Result<seq<UserProfile>, string>)
    requires Truthy(config.profileId) || !Truthy(config.accountId)
    ensures ProfileForOperation(config, l1) == ProfileForOperation(config, l2)
    ensures ProfileForOperation(config, l1).Success? <==> Truthy(config.profileId)
  {
  }

  /** With several profiles for the account the first listed one wins. */
  lemma FirstMatchingProfileWins(a: UserProfile, b: UserProfile, others: seq<UserProfile>)
    requires a.accountId == b.accountId != ""
    ensures ProfileForOperation(OperationConfig(Some(a.accountId), None), Success([a, b] + others))
            == Success(a.profileId)
  {
    var items := [a, b] + others;
    assert items[0] == a;
  }

  /** The `data` of `reports.files.get`: its status and `urls.apiUrl`. */
  datatype ReportFile = ReportFile(status: string, apiUrl: string)

  const Processing: string := "PROCESSING"
  const ReportAvailable: string := "REPORT_AVAILABLE"

  /** The status branch of `getReportFileUrl`: `Success(None)` is the
      `undefined` of a report still processing, `Success(Some(url))` the
      download URL of an available report, anything else an error. */
  function ReportFileUrl(file: ReportFile): (r: Result<Option<string>, string>)
    ensures r == Success(None) <==> file.status == Processing
    ensures r == Success(Some(file.apiUrl)) <==> file.status == ReportAvailable
    ensures r.Failure? <==> file.status != Processing && file.status != ReportAvailable
    ensures r.Failure? ==> r.error == "Unsupported report status: " + file.status
  {
    if file.status == Processing then Success(None)
    else if file.status == ReportAvailable then Success(Some(file.apiUrl))
    else Failure("Unsupported report status: " + file.status)
  }

  /** The parameters of `reports.files.get`. */
  datatype FileRequest = FileRequest(profileId: string, reportId: string, fileId: string)

  /** `getReportFileUrl`: resolve the profile, ask `reports.files.get`
      (the parameter `filesGet`) for the configured report file under the
      resolved profile, and classify the answer. A resolution error is
      reported before the file is asked for. */
  function GetReportFileUrl(
    config: OperationConfig, reportId: string, fileId: string,
    listing: Result<seq<UserProfile>, string>, filesGet: FileRequest -> Result<ReportFile, string>)
    : (r: Result<Option<string>, string>)
    ensures ProfileForOperation(config, listing).Failure? ==> r == Failure(ProfileForOperation(config, listing).error)
    ensures ProfileForOperation(config, listing).Success? ==>
      var file := filesGet(FileRequest(ProfileForOperation(config, listing).value, reportId, fileId));
      && (file.Failure? ==> r == Failure(file.error))
      && (file.Success? ==> r == ReportFileUrl(file.value))
  {
    var profileId :- ProfileForOperation(config, listing);
    var data :- filesGet(FileRequest(profileId, reportId, fileId));
    ReportFileUrl(data)
  }

  /** Example: the status "EXPIRED" is unsupported. */
  lemma ExpiredStatusIsAnError(apiUrl: string)
    ensures ReportFileUrl(ReportFile("EXPIRED", apiUrl)) == Failure("Unsupported report status: EXPIRED")
  {
    assert "EXPIRED"[0] != Processing[0];
    assert "EXPIRED"[0] != ReportAvailable[0];
    assert "Unsupported report status: " + "EXPIRED" == "Unsupported report status: EXPIRED";
  }
}
