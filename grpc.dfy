/** The gRPC ingestion service: each endpoint parses the user id, runs its
    service, maps the result or the exception to a response, and emits that
    response followed by completion. The services themselves are modelled in
    their own modules; here a service is the outcome it produces for a user. */
module IngestionGrpc {
  import opened Wrappers
  import opened Entities
  import opened Store
  import GH = GitHubIngestion
  import LC = LeetCodeIngestion
  import RP = ResumeProcessing
  import RT = ResumeText
  import LI = LinkedInIngestion

  const ErrorPrefix: string := "Error: "
  const AllCompletedMessage: string := "Full ingestion completed"
  const SomeFailedMessage: string := "Some ingestions failed"
  const HealthyStatus: string := "Ingestion service is healthy"
  const PdfContentType: string := "application/pdf"

  /** What a stream observer receives. */
  datatype Event<T> = OnNext(response: T) | OnCompleted

  // Unset proto fields read as their defaults (0, empty list).
  datatype GitHubResponse = GitHubResponse(success: bool, message: string, reposProcessed: int, repoNames: seq<string>)
  datatype LeetCodeResponse = LeetCodeResponse(success: bool, message: string, problemsSolved: int)
  datatype ResumeResponse = ResumeResponse(success: bool, message: string, wordCount: int)
  datatype LinkedInResponse = LinkedInResponse(success: bool, message: string)
  datatype AllResponse = AllResponse(success: bool, message: string,
                                     github: Option<GitHubResponse>,
                                     leetcode: Option<LeetCodeResponse>,
                                     resume: Option<ResumeResponse>)
  datatype HealthResponse = HealthResponse(healthy: bool, status: string, timestamp: Instant)

  /** The message every catch block reports. */
  function ErrorMessage(e: JavaException): string {
    ErrorPrefix + e.message
  }

  function GitHubResponseOf(out: Outcome<GH.IngestionResult>): GitHubResponse {
    match out
    case Returned(r) => GitHubResponse(r.success, r.message, r.reposProcessed, r.repoNames)
    case Threw(e) => GitHubResponse(false, ErrorMessage(e), 0, [])
  }

  function LeetCodeResponseOf(out: Outcome<LC.IngestionResult>): LeetCodeResponse {
    match out
    case Returned(r) => LeetCodeResponse(r.success, r.message, r.problemsSolved)
    case Threw(e) => LeetCodeResponse(false, ErrorMessage(e), 0)
  }

  function ResumeResponseOf(out: Outcome<RP.ProcessingResult>): ResumeResponse {
    match out
    case Returned(r) => ResumeResponse(r.success, r.message, r.wordCount)
    case Threw(e) => ResumeResponse(false, ErrorMessage(e), 0)
  }

  function LinkedInResponseOf(out: Outcome<LI.LinkedInResult>): LinkedInResponse {
    match out
    case Returned(r) => LinkedInResponse(r.success, r.message)
    case Threw(e) => LinkedInResponse(false, ErrorMessage(e))
  }

  /** The service outcome for a request: a malformed user id throws before
      the service runs. */
  function RunFor<R>(parsed: Outcome<UserId>, service: UserId -> Outcome<R>): Outcome<R> {
    match parsed
    case Threw(e) => Threw(e)
    case Returned(id) => service(id)
  }

  /** Every single-source endpoint and healthCheck emit exactly one response
      and then complete. */
  function Reply<T>(response: T): (events: seq<Event<T>>)
    ensures |events| == 2 && events[0] == OnNext(response) && events[1] == OnCompleted
  {
    [OnNext(response), OnCompleted]
  }

  function IngestGitHub(parsed: Outcome<UserId>, service: UserId -> Outcome<GH.IngestionResult>): seq<Event<GitHubResponse>> {
    Reply(GitHubResponseOf(RunFor(parsed, service)))
  }

  function IngestLeetCode(parsed: Outcome<UserId>, username: string,
                          service: (UserId, string) -> Outcome<LC.IngestionResult>): seq<Event<LeetCodeResponse>> {
    Reply(LeetCodeResponseOf(RunFor(parsed, id => service(id, username))))
  }

  /** The upload the résumé endpoints build: the request's bytes and file
      name, always declared as a PDF. */
  function UploadOf(content: seq<RT.byte>, fileName: string): RP.Upload {
    RP.Upload(Some(fileName), Some(PdfContentType), content)
  }

  function IngestResume(parsed: Outcome<UserId>, content: seq<RT.byte>, fileName: string,
                        service: (UserId, RP.Upload) -> Outcome<RP.ProcessingResult>): seq<Event<ResumeResponse>> {
    Reply(ResumeResponseOf(RunFor(parsed, id => service(id, UploadOf(content, fileName)))))
  }

  function IngestLinkedInJob(parsed: Outcome<UserId>, jobId: string,
                             service: (UserId, string) -> Outcome<LI.LinkedInResult>): seq<Event<LinkedInResponse>> {
    Reply(LinkedInResponseOf(RunFor(parsed, id => service(id, jobId))))
  }

  function HealthCheck(now: Instant): seq<Event<HealthResponse>> {
    Reply(HealthResponse(true, HealthyStatus, now))
  }

  /** A single-source response copies the service result when it returns, and
      reports failure with "Error: " and the exception's message when the id
      is malformed or the service throws. */
  lemma SingleSourceResponses(parsed: Outcome<UserId>, service: UserId -> Outcome<GH.IngestionResult>)
    ensures var events := IngestGitHub(parsed, service);
            var out := RunFor(parsed, service);
            && events[1] == OnCompleted
            && (out.Returned? ==> events[0].response == GitHubResponse(out.value.success, out.value.message,
                                                                       out.value.reposProcessed, out.value.repoNames))
            && (out.Threw? ==> !events[0].response.success
                               && events[0].response.message == ErrorPrefix + out.exception.message)
            && (parsed.Threw? ==> events[0].response.message == ErrorPrefix + parsed.exception.message)
  {
  }

  /** The other single-source endpoints copy success, message and count the
      same way, and report a thrown exception as a failure. */
  lemma OtherSourceResponses(parsed: Outcome<UserId>, username: string, jobId: string,
                             content: seq<RT.byte>, fileName: string,
                             leetcode: (UserId, string) -> Outcome<LC.IngestionResult>,
                             resume: (UserId, RP.Upload) -> Outcome<RP.ProcessingResult>,
                             linkedin: (UserId, string) -> Outcome<LI.LinkedInResult>)
    requires parsed.Returned?
    ensures var out := leetcode(parsed.value, username);
            var r := IngestLeetCode(parsed, username, leetcode)[0].response;
            (out.Returned? ==> r == LeetCodeResponse(out.value.success, out.value.message, out.value.problemsSolved))
            && (out.Threw? ==> r == LeetCodeResponse(false, ErrorPrefix + out.exception.message, 0))
    ensures var out := resume(parsed.value, UploadOf(content, fileName));
            var r := IngestResume(parsed, content, fileName, resume)[0].response;
            (out.Returned? ==> r == ResumeResponse(out.value.success, out.value.message, out.value.wordCount))
            && (out.Threw? ==> r == ResumeResponse(false, ErrorPrefix + out.exception.message, 0))
    ensures var out := linkedin(parsed.value, jobId);
            var r := IngestLinkedInJob(parsed, jobId, linkedin)[0].response;
            (out.Returned? ==> r == LinkedInResponse(out.value.success, out.value.message))
            && (out.Threw? ==> r == LinkedInResponse(false, ErrorPrefix + out.exception.message))
  {
  }

  /** healthCheck always answers healthy. */
  lemma AlwaysHealthy(now: Instant)
    ensures HealthCheck(now)[0].response.healthy && HealthCheck(now)[0].response.status == HealthyStatus
  {
  }

  // ---- ingestAll -------------------------------------------------------------

  datatype AllRequest = AllRequest(userId: string, leetcodeUsername: string,
                                   resumeContent: seq<RT.byte>, resumeFilename: string)

  predicate RunsLeetCode(request: AllRequest) {
    request.leetcodeUsername != []
  }

  predicate RunsResume(request: AllRequest) {
    request.resumeContent != [] && request.resumeFilename != []
  }

  /** The sources ingestAll runs, in order. */
  function Attempted(request: AllRequest, parsed: Outcome<UserId>): (r: seq<Source>)
    ensures parsed.Returned? ==> |r| >= 1 && r[0] == GitHub
  {
    if parsed.Threw? then []
    else [GitHub] + (if RunsLeetCode(request) then [LeetCode] else [])
                  + (if RunsResume(request) then [Resume] else [])
  }

  /** The response of ingestAll, as the code computes it: overall success is
      cleared only when the GitHub call throws. */
  function AllResponseOf(request: AllRequest, parsed: Outcome<UserId>,
                         github: UserId -> Outcome<GH.IngestionResult>,
                         leetcode: (UserId, string) -> Outcome<LC.IngestionResult>,
                         resume: (UserId, RP.Upload) -> Outcome<RP.ProcessingResult>): AllResponse
  {
    match parsed
    case Threw(e) => AllResponse(false, ErrorMessage(e), None, None, None)
    case Returned(id) =>
      var ok := github(id).Returned?;
      AllResponse(ok, if ok then AllCompletedMessage else SomeFailedMessage,
                  Some(GitHubResponseOf(github(id))),
                  if RunsLeetCode(request) then Some(LeetCodeResponseOf(leetcode(id, request.leetcodeUsername))) else None,
                  if RunsResume(request) then Some(ResumeResponseOf(resume(id, UploadOf(request.resumeContent, request.resumeFilename)))) else None)
  }

  /** ingestAll: GitHub, then LeetCode when a username is given, then the
      résumé when both content and file name are given; one response, then
      completion. `attempted` lists the services called, in order. */
  method IngestAll(request: AllRequest, parsed: Outcome<UserId>,
                   github: UserId -> Outcome<GH.IngestionResult>,
                   leetcode: (UserId, string) -> Outcome<LC.IngestionResult>,
                   resume: (UserId, RP.Upload) -> Outcome<RP.ProcessingResult>)
    returns (events: seq<Event<AllResponse>>, attempted: seq<Source>)
    ensures events == Reply(AllResponseOf(request, parsed, github, leetcode, resume))
    ensures attempted == Attempted(request, parsed)
  {
    attempted := [];
    if parsed.Threw? {
      return Reply(AllResponse(false, ErrorMessage(parsed.exception), None, None, None)), attempted;
    }
    var userId := parsed.value;
    var githubResponse: Option<GitHubResponse> := None;
    var leetcodeResponse: Option<LeetCodeResponse> := None;
    var resumeResponse: Option<ResumeResponse> := None;
    var overallSuccess := true;

    var githubResult := github(userId);
    attempted := attempted + [GitHub];
    match githubResult {
      case Returned(r) =>
        githubResponse := Some(GitHubResponse(r.success, r.message, r.reposProcessed, r.repoNames));
      case Threw(e) =>
        githubResponse := Some(GitHubResponse(false, ErrorMessage(e), 0, []));
        overallSuccess := false;
    }

    if request.leetcodeUsername != [] {
      var leetcodeResult := leetcode(userId, request.leetcodeUsername);
      attempted := attempted + [LeetCode];
      leetcodeResponse := Some(LeetCodeResponseOf(leetcodeResult));
    }

    if request.resumeContent != [] && request.resumeFilename != [] {
      var file := RP.Upload(Some(request.resumeFilename), Some(PdfContentType), request.resumeContent);
      var resumeResult := resume(userId, file);
      attempted := attempted + [Resume];
      resumeResponse := Some(ResumeResponseOf(resumeResult));
    }

    var message := if overallSuccess then AllCompletedMessage else SomeFailedMessage;
    events := Reply(AllResponse(overallSuccess, message, githubResponse, leetcodeResponse, resumeResponse));
  }

  /** Overall success holds exactly when the id parsed and the GitHub call
      returned, whatever the results say; the message follows the flag; a
      sub-result is present exactly for each source run. */
  lemma AllSuccessOnlyTracksGitHubExceptions(request: AllRequest, parsed: Outcome<UserId>,
                                             github: UserId -> Outcome<GH.IngestionResult>,
                                             leetcode: (UserId, string) -> Outcome<LC.IngestionResult>,
                                             resume: (UserId, RP.Upload) -> Outcome<RP.ProcessingResult>)
    ensures var r := AllResponseOf(request, parsed, github, leetcode, resume);
            && (r.success <==> parsed.Returned? && github(parsed.value).Returned?)
            && (parsed.Returned? ==> (r.message == AllCompletedMessage <==> r.success))
            && (r.github.Some? <==> GitHub in Attempted(request, parsed))
            && (r.leetcode.Some? <==> LeetCode in Attempted(request, parsed))
            && (r.resume.Some? <==> Resume in Attempted(request, parsed))
  {
    var att := Attempted(request, parsed);
    if parsed.Returned? {
      assert GitHub in att;
      assert LeetCode in att <==> RunsLeetCode(request);
      assert Resume in att <==> RunsResume(request);
    }
  }

  /** The AND of every attempted source's success. */
  function AndOfResults(r: AllResponse): bool {
    (r.github.Some? ==> r.github.value.success)
    && (r.leetcode.Some? ==> r.leetcode.value.success)
    && (r.resume.Some? ==> r.resume.value.success)
  }

  /** ingestAll is not an AND of its results: a GitHub result reporting
      failure, or a failing LeetCode run, still gives overall success. */
  lemma OverallSuccessIsNotAnAnd(request: AllRequest, id: UserId)
    requires RunsLeetCode(request)
    ensures var github := (u: UserId) => Returned(GH.IngestionResult(false, GH.NoDataMessage, 0, []));
            var leetcode := (u: UserId, n: string) => Threw(JavaException(IllegalArgument, LC.UserNotFoundPrefix + u));
            var resume := (u: UserId, f: RP.Upload) => Returned(RP.ProcessingResult(true, RP.SuccessMessage, 0));
            var r := AllResponseOf(request, Returned(id), github, leetcode, resume);
            r.success && r.message == AllCompletedMessage && !AndOfResults(r)
  {
  }

  /** Every résumé reaching the service through gRPC passes the PDF check. */
  lemma GrpcUploadsPassPdfCheck(content: seq<RT.byte>, fileName: string)
    ensures var u := UploadOf(content, fileName);
            RT.IsPdfFile(u.contentType, u.fileName)
  {
  }
}
