/** The HTTP ingestion controller: each endpoint maps its service's result or
    exception to a status and a body; fullIngestion runs GitHub and, when a
    username is given, LeetCode, and folds their outcomes into one message. */
module IngestionHttp {
  import opened Wrappers
  import opened Strings
  import opened Entities
  import opened Store
  import GH = GitHubIngestion
  import LC = LeetCodeIngestion
  import RP = ResumeProcessing
  import G = IngestionGrpc

  const Ok: int := 200
  const BadRequest: int := 400
  const InternalServerError: int := 500
  const InternalErrorPrefix: string := "Internal error: "
  const PdfFailurePrefix: string := "Failed to process PDF: "
  const GitHubLabel: string := "GitHub: "
  const GitHubFailedLabel: string := "GitHub: Failed - "
  const LeetCodeLabel: string := "LeetCode: "
  const LeetCodeFailedLabel: string := "LeetCode: Failed - "
  const PartSeparator: string := " | "

  /** The `data` map of a response. */
  datatype ResponseData =
    | NoData
    | GitHubData(reposProcessed: int, repos: seq<string>)
    | LeetCodeData(problemsSolved: int)
    | ResumeData(fileName: string, wordCount: int)

  datatype IngestionResponse = IngestionResponse(success: bool, message: string, data: ResponseData)

  datatype HttpResponse = HttpResponse(status: int, body: IngestionResponse)

  /** The catch blocks: IllegalArgumentException is a bad request carrying its
      message; on the résumé endpoint an IOException is a PDF failure; anything
      else is an internal error. */
  function FailureOf(e: JavaException, catchesIO: bool): HttpResponse {
    if e.kind == IllegalArgument then HttpResponse(BadRequest, IngestionResponse(false, e.message, NoData))
    else if catchesIO && e.kind == IO then
      HttpResponse(InternalServerError, IngestionResponse(false, PdfFailurePrefix + e.message, NoData))
    else HttpResponse(InternalServerError, IngestionResponse(false, InternalErrorPrefix + e.message, NoData))
  }

  function GitHubEndpoint(out: Outcome<GH.IngestionResult>): HttpResponse {
    match out
    case Returned(r) =>
      if r.success then HttpResponse(Ok, IngestionResponse(true, r.message, GitHubData(r.reposProcessed, r.repoNames)))
      else HttpResponse(BadRequest, IngestionResponse(false, r.message, NoData))
    case Threw(e) => FailureOf(e, false)
  }

  function LeetCodeEndpoint(out: Outcome<LC.IngestionResult>): HttpResponse {
    match out
    case Returned(r) =>
      if r.success then HttpResponse(Ok, IngestionResponse(true, r.message, LeetCodeData(r.problemsSolved)))
      else HttpResponse(BadRequest, IngestionResponse(false, r.message, NoData))
    case Threw(e) => FailureOf(e, false)
  }

  /** The résumé endpoint. Its success body puts the file name in Map.of,
      which rejects a null name with a NullPointerException. */
  function ResumeEndpoint(file: RP.Upload, out: Outcome<RP.ProcessingResult>): HttpResponse {
    match out
    case Returned(r) =>
      if r.success then
        if file.fileName.None? then FailureOf(NullPointerException(), true)
        else HttpResponse(Ok, IngestionResponse(true, r.message, ResumeData(file.fileName.value, r.wordCount)))
      else HttpResponse(BadRequest, IngestionResponse(false, r.message, NoData))
    case Threw(e) => FailureOf(e, true)
  }

  predicate IsMapped(h: HttpResponse) {
    && (h.status == Ok <==> h.body.success)
    && (h.status == Ok || h.status == BadRequest || h.status == InternalServerError)
    && (h.status != Ok ==> h.body.data == NoData)
  }

  /** On every endpoint the status is 200 exactly when the body reports
      success, only a success carries data, and a 400 answers exactly a result
      reporting failure or an IllegalArgumentException. */
  lemma EndpointStatuses(gh: Outcome<GH.IngestionResult>, lc: Outcome<LC.IngestionResult>,
                         file: RP.Upload, rp: Outcome<RP.ProcessingResult>)
    ensures IsMapped(GitHubEndpoint(gh)) && IsMapped(LeetCodeEndpoint(lc)) && IsMapped(ResumeEndpoint(file, rp))
    ensures GitHubEndpoint(gh).status == BadRequest <==>
              (gh.Returned? && !gh.value.success) || (gh.Threw? && gh.exception.kind == IllegalArgument)
    ensures LeetCodeEndpoint(lc).status == BadRequest <==>
              (lc.Returned? && !lc.value.success) || (lc.Threw? && lc.exception.kind == IllegalArgument)
    ensures ResumeEndpoint(file, rp).status == BadRequest <==>
              (rp.Returned? && !rp.value.success) || (rp.Threw? && rp.exception.kind == IllegalArgument)
    ensures rp.Threw? && rp.exception.kind == IO ==>
              ResumeEndpoint(file, rp).body.message == PdfFailurePrefix + rp.exception.message
    ensures gh.Threw? && gh.exception.kind == IO ==>
              GitHubEndpoint(gh).body.message == InternalErrorPrefix + gh.exception.message
  {
  }

  // ---- fullIngestion ---------------------------------------------------------

  predicate RunsLeetCode(username: Option<string>) {
    username.Some? && !IsBlank(username.value)
  }

  function GitHubPart(out: Outcome<GH.IngestionResult>): string {
    match out
    case Returned(r) => GitHubLabel + r.message
    case Threw(e) => GitHubFailedLabel + e.message
  }

  function LeetCodePart(out: Outcome<LC.IngestionResult>): string {
    match out
    case Returned(r) => LeetCodeLabel + r.message
    case Threw(e) => LeetCodeFailedLabel + e.message
  }

  predicate GitHubSucceeded(out: Outcome<GH.IngestionResult>) {
    out.Returned? && out.value.success
  }

  predicate LeetCodeSucceeded(out: Outcome<LC.IngestionResult>) {
    out.Returned? && out.value.success
  }

  /** The response fullIngestion builds. */
  function FullIngestionResponse(userId: UserId, username: Option<string>,
                                 github: UserId -> Outcome<GH.IngestionResult>,
                                 leetcode: (UserId, string) -> Outcome<LC.IngestionResult>): HttpResponse
  {
    var gh := github(userId);
    if RunsLeetCode(username) then
      var lc := leetcode(userId, username.value);
      HttpResponse(Ok, IngestionResponse(
        GitHubSucceeded(gh) && LeetCodeSucceeded(lc),
        GitHubPart(gh) + PartSeparator + LeetCodePart(lc), NoData))
    else
      HttpResponse(Ok, IngestionResponse(GitHubSucceeded(gh), GitHubPart(gh), NoData))
  }

  /** fullIngestion: append the GitHub part, then, for a non-blank username,
      " | " and the LeetCode part; clear `allSuccess` on any failure or
      exception. `attempted` lists the services called, in order. */
  method FullIngestion(userId: UserId, username: Option<string>,
                       github: UserId -> Outcome<GH.IngestionResult>,
                       leetcode: (UserId, string) -> Outcome<LC.IngestionResult>)
    returns (response: HttpResponse, attempted: seq<Source>)
    ensures response == FullIngestionResponse(userId, username, github, leetcode)
    ensures attempted == [GitHub] + (if RunsLeetCode(username) then [LeetCode] else [])
  {
    var messages := "";
    var allSuccess := true;
    var githubResult := github(userId);
    attempted := [GitHub];
    match githubResult {
      case Returned(r) =>
        messages := messages + GitHubLabel + r.message;
        if !r.success {
          allSuccess := false;
        }
      case Threw(e) =>
        messages := messages + GitHubFailedLabel + e.message;
        allSuccess := false;
    }
    assert messages == GitHubPart(githubResult) && allSuccess == GitHubSucceeded(githubResult);
    if username.Some? && !IsBlank(username.value) {
      messages := messages + PartSeparator;
      var leetcodeResult := leetcode(userId, username.value);
      attempted := attempted + [LeetCode];
      match leetcodeResult {
        case Returned(r) =>
          messages := messages + LeetCodeLabel + r.message;
          if !r.success {
            allSuccess := false;
          }
        case Threw(e) =>
          messages := messages + LeetCodeFailedLabel + e.message;
          allSuccess := false;
      }
      assert messages == GitHubPart(githubResult) + PartSeparator + LeetCodePart(leetcodeResult);
    }
    response := HttpResponse(Ok, IngestionResponse(allSuccess, messages, NoData));
  }

  /** fullIngestion always answers 200 without data; its success is the AND
      of every attempted source's success, an exception counting as failure;
      its message starts with the GitHub part and has a LeetCode part exactly
      when a non-blank username was given. */
  lemma FullIngestionIsAnAnd(userId: UserId, username: Option<string>,
                             github: UserId -> Outcome<GH.IngestionResult>,
                             leetcode: (UserId, string) -> Outcome<LC.IngestionResult>)
    ensures var h := FullIngestionResponse(userId, username, github, leetcode);
            && h.status == Ok && h.body.data == NoData
            && (h.body.success <==>
                  github(userId).Returned? && github(userId).value.success
                  && (RunsLeetCode(username) ==>
                        leetcode(userId, username.value).Returned? && leetcode(userId, username.value).value.success))
            && StartsWith(h.body.message, GitHubPart(github(userId)))
            && (!RunsLeetCode(username) ==> h.body.message == GitHubPart(github(userId)))
            && (RunsLeetCode(username) ==>
                  EndsWith(h.body.message, PartSeparator + LeetCodePart(leetcode(userId, username.value))))
  {
    var h := FullIngestionResponse(userId, username, github, leetcode);
    var g := GitHubPart(github(userId));
    assert h.body.message[..|g|] == g;
    if RunsLeetCode(username) {
      var tail := PartSeparator + LeetCodePart(leetcode(userId, username.value));
      assert h.body.message == g + tail;
      assert h.body.message[|h.body.message| - |tail|..] == tail;
    }
  }

  /** The two boundaries disagree: when GitHub reports that it found no data,
      fullIngestion reports failure while the gRPC ingestAll reports success. */
  lemma BoundariesDisagreeOnGitHubFailure(userId: UserId, request: G.AllRequest)
    requires !G.RunsLeetCode(request) && !G.RunsResume(request)
    ensures var github := (u: UserId) => Returned(GH.IngestionResult(false, GH.NoDataMessage, 0, []));
            var leetcode := (u: UserId, n: string) => Returned(LC.IngestionResult(true, LC.SuccessMessage, 0));
            var resume := (u: UserId, f: RP.Upload) => Returned(RP.ProcessingResult(true, RP.SuccessMessage, 0));
            && !FullIngestionResponse(userId, None, github, leetcode).body.success
            && G.AllResponseOf(request, Returned(userId), github, leetcode, resume).success
  {
  }
}
