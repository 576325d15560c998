/** The records the ingestion services read and write: the user row, the three
    per-source blobs of the `user_info` row, knowledge-base metadata, and the
    cached LinkedIn job. Maps, lists and nullable fields of the Java classes
    become Dafny maps, sequences and Options. */
module Entities {
  import opened Wrappers

  /** A user's id, as the canonical text of its UUID. */
  type UserId = string

  /** A clock reading (epoch milliseconds); every `now()` is a parameter. */
  type Instant = int

  /** The ingestion service's view of a `users` row. */
  datatype User = User(id: UserId, githubUsername: string, githubToken: string)

  // ---- GitHub blob -------------------------------------------------------

  /** One pinned repository in the blob; counts stay null when GitHub sent null. */
  datatype RepoSummary = RepoSummary(
    name: string,
    url: string,
    stars: Option<int>,
    forks: Option<int>,
    primaryLanguage: string)

  /** The `github_stats` blob. `topTopics` is a set: its list order came from a HashSet. */
  datatype GitHubStats = GitHubStats(
    totalStars: int,
    totalForks: int,
    totalPinnedRepos: nat,
    pinnedRepos: seq<RepoSummary>,
    languageDistribution: map<string, nat>,
    topTopics: set<string>,
    lastSynced: Instant)

  // ---- LeetCode blob -----------------------------------------------------

  datatype RecentSubmission = RecentSubmission(
    title: string,
    titleSlug: string,
    language: string,
    timestamp: int)

  /** The `leetcode_stats` blob; a field the builder never set stays None. */
  datatype LeetCodeStats = LeetCodeStats(
    username: string,
    ranking: int,
    reputation: int,
    starRating: real,
    aboutMe: string,
    totalSolved: Option<int>,
    easySolved: Option<int>,
    mediumSolved: Option<int>,
    hardSolved: Option<int>,
    contestsAttended: Option<int>,
    contestRating: Option<real>,
    globalRanking: Option<int>,
    topPercentage: Option<real>,
    languageStats: Option<map<string, int>>,
    badges: Option<seq<string>>,
    activeBadge: Option<string>,
    recentSubmissions: Option<seq<RecentSubmission>>)

  // ---- Resume blob -------------------------------------------------------

  /** The `resume_summary` blob. */
  datatype ResumeSummary = ResumeSummary(
    fileName: Option<string>,
    fileHash: string,
    wordCount: nat,
    processedAt: Instant,
    rawText: string,
    skills: seq<string>,
    experiences: seq<string>,
    education: seq<string>,
    summary: string)

  // ---- user_info row -----------------------------------------------------

  /** The single `user_info` row of a user: one blob per source and the time
      of the last successful ingestion of any source. */
  datatype UserInfo = UserInfo(
    githubStats: Option<GitHubStats>,
    leetcodeStats: Option<LeetCodeStats>,
    resumeSummary: Option<ResumeSummary>,
    lastIngestedAt: Option<Instant>)

  /** A row freshly built for a user that had none. */
  const EmptyUserInfo: UserInfo := UserInfo(None, None, None, None)

  // ---- knowledge base ----------------------------------------------------

  /** The `metadata` map of a knowledge-base entry, one shape per source. */
  datatype Metadata =
    | GitHubMetadata(repoName: string, repoUrl: string, primaryLanguage: string,
                     stars: int, forks: int, topics: seq<string>)
    | LeetCodeMetadata(username: string, totalSolved: int, contestRating: real, ranking: int)
    | ResumeMetadata(fileName: string, fileHash: string, wordCount: nat, processedAt: Instant)

  // ---- LinkedIn ----------------------------------------------------------

  datatype LinkedInJob = LinkedInJob(jobId: string, rawContent: string)
}
