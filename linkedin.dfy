/** ingestLinkedInJob: answer from the job cache when the job is stored,
    otherwise validate the id, fetch the posting and cache its content. */
module LinkedInIngestion {
  import opened Wrappers
  import opened Entities
  import opened Store

  const JobIdLength: nat := 10
  const NotFoundPrefix: string := "Job or Job content not found for: {}"

  datatype LinkedInResult = LinkedInResult(success: bool, message: string)

  /** The page fetch of `https://www.linkedin.com/jobs/view/<jobId>`: an I/O
      failure, a page without the job-description element, or the element
      (whether it has text, and its Markdown conversion). */
  datatype PageFetch =
    | FetchFailed(message: string)
    | NoJobElement
    | JobElement(hasText: bool, markdown: string)

  /** The id check: exactly ten characters, each a digit by `isDigit`
      (Character.isDigit, which accepts every Unicode decimal digit). */
  predicate IsValidJobId(jobId: string, isDigit: char -> bool) {
    |jobId| == JobIdLength && forall i :: 0 <= i < |jobId| ==> isDigit(jobId[i])
  }

  /** jobContent: None for an invalid id or a missing or empty element; the
      fetch's IOException propagates. */
  function JobContent(jobId: string, isDigit: char -> bool, fetch: string -> PageFetch): (r: Outcome<Option<string>>)
    ensures !IsValidJobId(jobId, isDigit) ==> r == Returned(None)
    ensures r.Threw? ==> r.exception.kind == IO
  {
    if !IsValidJobId(jobId, isDigit) then Returned(None)
    else match fetch(jobId)
      case FetchFailed(m) => Threw(JavaException(IO, m))
      case NoJobElement => Returned(None)
      case JobElement(hasText, markdown) => if hasText then Returned(Some(markdown)) else Returned(None)
  }

  /** The whole call on the job cache: its outcome and the cache afterwards. */
  function Ingest(jobs: map<string, LinkedInJob>, jobId: string, isDigit: char -> bool,
                  fetch: string -> PageFetch): (Outcome<LinkedInResult>, map<string, LinkedInJob>)
  {
    if jobId in jobs then (Returned(LinkedInResult(true, jobs[jobId].rawContent)), jobs)
    else match JobContent(jobId, isDigit, fetch)
      case Threw(e) => (Threw(e), jobs)
      case Returned(None) => (Returned(LinkedInResult(false, NotFoundPrefix + jobId)), jobs)
      case Returned(Some(content)) =>
        (Returned(LinkedInResult(true, content)), jobs[jobId := LinkedInJob(jobId, content)])
  }

  /** A cached job is answered from the cache: no validation, no fetch, no
      write, whatever the id looks like. */
  lemma CachedJobAnsweredFromCache(jobs: map<string, LinkedInJob>, jobId: string,
                                   isDigit: char -> bool, fetch: string -> PageFetch)
    requires jobId in jobs
    ensures Ingest(jobs, jobId, isDigit, fetch) == (Returned(LinkedInResult(true, jobs[jobId].rawContent)), jobs)
  {
  }

  /** An id that is not ten digits fails with the not-found message and saves
      nothing, before any fetch. */
  lemma InvalidIdFails(jobs: map<string, LinkedInJob>, jobId: string,
                       isDigit: char -> bool, fetch: string -> PageFetch)
    requires jobId !in jobs && !IsValidJobId(jobId, isDigit)
    ensures Ingest(jobs, jobId, isDigit, fetch) == (Returned(LinkedInResult(false, NotFoundPrefix + jobId)), jobs)
  {
  }

  /** The cache only grows by the fetched job, and a failure or exception
      leaves it as it was. */
  lemma IngestSavesAtMostTheJob(jobs: map<string, LinkedInJob>, jobId: string,
                                isDigit: char -> bool, fetch: string -> PageFetch)
    ensures var (out, after) := Ingest(jobs, jobId, isDigit, fetch);
            && (forall id :: id != jobId ==> (id in after <==> id in jobs))
            && (forall id :: id in jobs ==> id in after && after[id] == jobs[id])
            && (out.Threw? || !out.value.success ==> after == jobs)
            && (jobId !in jobs && jobId in after ==>
                  out == Returned(LinkedInResult(true, after[jobId].rawContent)) && after[jobId].jobId == jobId)
  {
  }

  /** Repeating a successful call, with any page fetch, returns the same
      result and saves nothing new. */
  lemma RepeatIsIdempotent(jobs: map<string, LinkedInJob>, jobId: string, isDigit: char -> bool,
                           fetch: string -> PageFetch, refetch: string -> PageFetch)
    requires var (out, _) := Ingest(jobs, jobId, isDigit, fetch); out.Returned? && out.value.success
    ensures var (out, after) := Ingest(jobs, jobId, isDigit, fetch);
            Ingest(after, jobId, isDigit, refetch) == (out, after)
  {
    var (out, after) := Ingest(jobs, jobId, isDigit, fetch);
    assert jobId in after;
  }

  /** The check is Character.isDigit, not an ASCII test: ten copies of any
      other character it accepts pass as an id. */
  lemma NonAsciiDigitsPass(isDigit: char -> bool, c: char)
    requires isDigit(c) && !('0' <= c <= '9')
    ensures IsValidJobId(seq(JobIdLength, _ => c), isDigit)
  {
    var id := seq(JobIdLength, _ => c);
    assert forall i :: 0 <= i < |id| ==> id[i] == c;
  }

  /** ingestLinkedInJob. `isDigit` is Character.isDigit and `fetch` the page
      fetch with its conversion to Markdown. The user id plays no part. */
  method IngestLinkedInJob(db: Database, userId: UserId, jobId: string,
                           isDigit: char -> bool, fetch: string -> PageFetch)
    returns (out: Outcome<LinkedInResult>)
    requires db.Valid()
    modifies db
    ensures db.Valid()
    ensures (out, db.jobs) == Ingest(old(db.jobs), jobId, isDigit, fetch)
    ensures db.users == old(db.users) && db.kb == old(db.kb) && db.profiles == old(db.profiles)
  {
    if jobId in db.jobs {
      return Returned(LinkedInResult(true, db.jobs[jobId].rawContent));
    }
    var content := JobContent(jobId, isDigit, fetch);
    if content.Threw? {
      return Threw(content.exception);
    }
    if content.value.None? {
      return Returned(LinkedInResult(false, NotFoundPrefix + jobId));
    }
    db.SaveJob(LinkedInJob(jobId, content.value.value));
    return Returned(LinkedInResult(true, content.value.value));
  }
}
