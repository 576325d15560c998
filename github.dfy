/** GitHub ingestion: fetch a user's pinned repositories, fold them into star
    and fork totals, a language histogram and a topic set, store one
    knowledge-base entry per repository, and replace the user's GitHub blob. */
module GitHubIngestion {
  import opened Wrappers
  import opened Strings
  import opened Entities
  import opened Store

  const SourceType: string := "github"
  const UnknownLanguage: string := "Unknown"
  const NoDataMessage: string := "No GitHub data found"
  const SuccessMessage: string := "Successfully ingested GitHub data"
  const UserNotFoundPrefix: string := "User not found: "

  // ---- the GraphQL response ----------------------------------------------

  /** A pinned repository as GitHub reports it; every nullable part is an Option.
      `primaryLanguage` is the language's name, `topics` the names of the
      repository's topic nodes. */
  datatype RepositoryNode = RepositoryNode(
    name: string,
    description: Option<string>,
    url: string,
    stargazerCount: Option<int>,
    forkCount: Option<int>,
    primaryLanguage: Option<string>,
    topics: Option<seq<string>>)

  datatype PinnedItems = PinnedItems(nodes: Option<seq<RepositoryNode>>)
  datatype UserWrapper = UserWrapper(pinnedItems: Option<PinnedItems>)
  datatype DataWrapper = DataWrapper(user: Option<UserWrapper>)
  datatype GraphQLResponse = GraphQLResponse(data: Option<DataWrapper>)

  datatype IngestionResult = IngestionResult(
    success: bool,
    message: string,
    reposProcessed: int,
    repoNames: seq<string>)

  // ---- one repository ----------------------------------------------------

  function StarsOf(r: RepositoryNode): int { r.stargazerCount.GetOr(0) }
  function ForksOf(r: RepositoryNode): int { r.forkCount.GetOr(0) }

  /** The language a repository is counted under. */
  function LanguageOf(r: RepositoryNode): string {
    r.primaryLanguage.GetOr(UnknownLanguage)
  }

  /** extractTopics: the topic names, none when GitHub sent null. */
  function TopicsOf(r: RepositoryNode): seq<string> {
    r.topics.GetOr([])
  }

  /** The topics a repository adds to the topic set. */
  function TopicSet(r: RepositoryNode): set<string> {
    var ts := TopicsOf(r);
    set t | t in ts
  }

  function SummaryOf(r: RepositoryNode): RepoSummary {
    RepoSummary(r.name, r.url, r.stargazerCount, r.forkCount, LanguageOf(r))
  }

  function MetadataOf(r: RepositoryNode): Metadata {
    GitHubMetadata(r.name, r.url, LanguageOf(r), StarsOf(r), ForksOf(r), TopicsOf(r))
  }

  /** What string concatenation makes of a nullable Integer. */
  function NullableIntText(n: Option<int>): string {
    match n
    case Some(v) => IntToString(v)
    case None => NullText
  }

  /** The optional lines of buildRepoContent, each present only under its condition. */
  function DescriptionLine(r: RepositoryNode): string {
    if r.description.Some? && !IsBlank(r.description.value)
    then "Description: " + r.description.value + "\n" else ""
  }

  function LanguageLine(r: RepositoryNode): string {
    if r.primaryLanguage.Some? then "Primary Language: " + r.primaryLanguage.value + "\n" else ""
  }

  function TopicsLine(r: RepositoryNode): string {
    if TopicsOf(r) != [] then "Topics: " + Join(", ", TopicsOf(r)) + "\n" else ""
  }

  function ReadmeSection(readme: Option<string>): string {
    if readme.Some? && !IsBlank(readme.value) then "\n--- README ---\n" + readme.value else ""
  }

  /** buildRepoContent: the text stored in the repository's knowledge-base entry. */
  function RepoContent(r: RepositoryNode, readme: Option<string>): string {
    HeaderLines(r) + DescriptionLine(r) + LanguageLine(r) + TopicsLine(r)
      + CountLines(r) + ReadmeSection(readme)
  }

  /** The name and URL lines every entry starts with. */
  function HeaderLines(r: RepositoryNode): string {
    "Repository: " + r.name + "\n" + "URL: " + r.url + "\n"
  }

  /** The star and fork lines; a null count is written as "null". */
  function CountLines(r: RepositoryNode): string {
    "Stars: " + NullableIntText(r.stargazerCount) + "\n"
      + "Forks: " + NullableIntText(r.forkCount) + "\n"
  }

  /** Where the parts of a six-part concatenation sit. */
  lemma SixParts(a: string, b: string, c: string, d: string, e: string, f: string)
    ensures var s := a + b + c + d + e + f;
            && s[..|a|] == a
            && s[|a|..|a| + |b|] == b
            && (b == [] ==> s[|a|..][..|c|] == c)
  {
    var s := a + b + c + d + e + f;
    assert s == a + (b + (c + (d + e + f)));
  }

  /** A blank description reads as no description at all. */
  lemma BlankDescriptionIsOmitted(r: RepositoryNode, readme: Option<string>)
    requires r.description.None? || IsBlank(r.description.value)
    ensures RepoContent(r, readme) == RepoContent(r.(description := None), readme)
    ensures RepoContent(r, readme)[..|HeaderLines(r)|] == HeaderLines(r)
    ensures RepoContent(r, readme)[|HeaderLines(r)|..][..|LanguageLine(r)|] == LanguageLine(r)
  {
    var r2 := r.(description := None);
    assert HeaderLines(r2) == HeaderLines(r) && DescriptionLine(r2) == DescriptionLine(r) == [];
    assert LanguageLine(r2) == LanguageLine(r) && TopicsLine(r2) == TopicsLine(r) && CountLines(r2) == CountLines(r);
    SixParts(HeaderLines(r), DescriptionLine(r), LanguageLine(r), TopicsLine(r), CountLines(r), ReadmeSection(readme));
  }

  /** A non-blank description sits on the third line, after name and URL. */
  lemma DescriptionFollowsUrl(r: RepositoryNode, readme: Option<string>)
    requires r.description.Some? && !IsBlank(r.description.value)
    ensures var line := "Description: " + r.description.value + "\n";
            RepoContent(r, readme)[|HeaderLines(r)|..|HeaderLines(r)| + |line|] == line
  {
    assert DescriptionLine(r) == "Description: " + r.description.value + "\n";
    SixParts(HeaderLines(r), DescriptionLine(r), LanguageLine(r), TopicsLine(r), CountLines(r), ReadmeSection(readme));
  }

  /** The README section is a suffix added exactly when the README is non-blank. */
  lemma ReadmeIsSuffix(r: RepositoryNode, readme: Option<string>)
    ensures readme.Some? && !IsBlank(readme.value) ==>
              RepoContent(r, readme) == RepoContent(r, None) + "\n--- README ---\n" + readme.value
    ensures !(readme.Some? && !IsBlank(readme.value)) ==>
              RepoContent(r, readme) == RepoContent(r, None)
  {
  }

  // ---- the fold over the pinned repositories -----------------------------

  function SumStars(rs: seq<RepositoryNode>): int {
    if rs == [] then 0 else SumStars(rs[..|rs| - 1]) + StarsOf(rs[|rs| - 1])
  }

  function SumForks(rs: seq<RepositoryNode>): int {
    if rs == [] then 0 else SumForks(rs[..|rs| - 1]) + ForksOf(rs[|rs| - 1])
  }

  /** The language histogram after merging each repository's language with 1. */
  function Histogram(rs: seq<RepositoryNode>): map<string, nat> {
    if rs == [] then map[]
    else
      var h := Histogram(rs[..|rs| - 1]);
      var l := LanguageOf(rs[|rs| - 1]);
      h[l := (if l in h then h[l] else 0) + 1]
  }

  function TopicUnion(rs: seq<RepositoryNode>): set<string> {
    if rs == [] then {}
    else TopicUnion(rs[..|rs| - 1]) + TopicSet(rs[|rs| - 1])
  }

  function Summaries(rs: seq<RepositoryNode>): (r: seq<RepoSummary>)
    ensures |r| == |rs|
    ensures forall i :: 0 <= i < |rs| ==> r[i] == SummaryOf(rs[i])
  {
    seq(|rs|, i requires 0 <= i < |rs| => SummaryOf(rs[i]))
  }

  function Names(rs: seq<RepositoryNode>): (r: seq<string>)
    ensures |r| == |rs|
    ensures forall i :: 0 <= i < |rs| ==> r[i] == rs[i].name
  {
    seq(|rs|, i requires 0 <= i < |rs| => rs[i].name)
  }

  /** The GitHub blob stored for a successful run. */
  function StatsOf(rs: seq<RepositoryNode>, now: Instant): GitHubStats {
    GitHubStats(SumStars(rs), SumForks(rs), |rs|, Summaries(rs), Histogram(rs), TopicUnion(rs), now)
  }

  function RepoKey(userId: UserId, r: RepositoryNode): EntryKey {
    EntryKey(userId, SourceType, r.url)
  }

  function RepoEntry(userId: UserId, r: RepositoryNode, readme: Option<string>): KbEntry {
    KbEntry(RepoKey(userId, r), RepoContent(r, readme), MetadataOf(r))
  }

  /** The knowledge base after the per-repository upserts, in pinned order. */
  ghost function UpsertRepos(t: Table, userId: UserId, rs: seq<RepositoryNode>,
                             readme: (string, string) -> Option<string>, token: string): (r: Table)
    requires WellFormed(t)
    ensures WellFormed(r)
    ensures forall i :: i in t.rows ==> i in r.rows
  {
    if rs == [] then t
    else
      var last := rs[|rs| - 1];
      var e := RepoEntry(userId, last, readme(last.url, token));
      UpsertTable(UpsertRepos(t, userId, rs[..|rs| - 1], readme, token), e.key, e.content, e.metadata)
  }

  // ---- properties of the fold --------------------------------------------

  /** The number of repositories counted under a language. */
  function CountLanguage(rs: seq<RepositoryNode>, l: string): nat {
    if rs == [] then 0
    else CountLanguage(rs[1..], l) + (if LanguageOf(rs[0]) == l then 1 else 0)
  }

  /** Counting from the back gives the same number. */
  lemma {:induction false} CountLanguageLast(rs: seq<RepositoryNode>, l: string)
    requires rs != []
    ensures CountLanguage(rs, l) == CountLanguage(rs[..|rs| - 1], l) + (if LanguageOf(rs[|rs| - 1]) == l then 1 else 0)
    decreases |rs|
  {
    if |rs| > 1 {
      CountLanguageLast(rs[1..], l);
      assert rs[1..][..|rs[1..]| - 1] == rs[..|rs| - 1][1..];
    }
  }

  /** Each language's histogram count is the number of repositories with that
      language ("Unknown" for a null one), and only such languages appear. */
  lemma {:induction false} HistogramCounts(rs: seq<RepositoryNode>, l: string)
    ensures l in Histogram(rs) <==> CountLanguage(rs, l) > 0
    ensures l in Histogram(rs) ==> Histogram(rs)[l] == CountLanguage(rs, l)
  {
    if rs != [] {
      HistogramCounts(rs[..|rs| - 1], l);
      CountLanguageLast(rs, l);
    }
  }

  /** The sum of a map's values. */
  ghost function MapSum(m: map<string, nat>): nat
    decreases |m|
  {
    if m == map[] then 0
    else
      var k :| k in m;
      m[k] + MapSum(m - {k})
  }

  /** MapSum does not depend on which key it picks first. */
  lemma {:induction false} MapSumRemove(m: map<string, nat>, k: string)
    requires k in m
    ensures MapSum(m) == m[k] + MapSum(m - {k})
    decreases |m|
  {
    var j :| j in m && MapSum(m) == m[j] + MapSum(m - {j});
    if j != k {
      MapSumRemove(m - {j}, k);
      MapSumRemove(m - {k}, j);
      assert (m - {j}) - {k} == (m - {k}) - {j};
    }
  }

  /** The histogram's counts add up to the number of pinned repositories. */
  lemma {:induction false} HistogramTotal(rs: seq<RepositoryNode>)
    ensures MapSum(Histogram(rs)) == |rs|
  {
    if rs != [] {
      var p := rs[..|rs| - 1];
      HistogramTotal(p);
      var h := Histogram(p);
      var l := LanguageOf(rs[|rs| - 1]);
      var h2 := h[l := (if l in h then h[l] else 0) + 1];
      MapSumRemove(h2, l);
      assert h2 - {l} == h - {l};
      if l in h {
        MapSumRemove(h, l);
      } else {
        assert h - {l} == h;
      }
    }
  }

  /** A topic is in the union exactly when some repository lists it. */
  lemma {:induction false} TopicUnionMembers(rs: seq<RepositoryNode>, t: string)
    ensures t in TopicUnion(rs) <==> exists i :: 0 <= i < |rs| && t in TopicsOf(rs[i])
  {
    if rs != [] {
      var p := rs[..|rs| - 1];
      TopicUnionMembers(p, t);
      if t in TopicUnion(p) {
        var i :| 0 <= i < |p| && t in TopicsOf(p[i]);
        assert rs[i] == p[i];
      }
      if exists i :: 0 <= i < |rs| && t in TopicsOf(rs[i]) {
        var i :| 0 <= i < |rs| && t in TopicsOf(rs[i]);
        if i < |p| {
          assert p[i] == rs[i];
        }
      }
    }
  }

  /** Star and fork totals are sums of per-repository counts; splitting the list
      splits the sums. */
  lemma {:induction false} SumsAppend(a: seq<RepositoryNode>, b: seq<RepositoryNode>)
    ensures SumStars(a + b) == SumStars(a) + SumStars(b)
    ensures SumForks(a + b) == SumForks(a) + SumForks(b)
    decreases |b|
  {
    if b == [] {
      assert a + b == a;
    } else {
      var b' := b[..|b| - 1];
      assert (a + b)[..|a + b| - 1] == a + b';
      assert (a + b)[|a + b| - 1] == b[|b| - 1];
      SumsAppend(a, b');
    }
  }

  /** A repository sent with null counts contributes nothing to the totals. */
  lemma NullCountsAddNothing(rs: seq<RepositoryNode>, r: RepositoryNode)
    requires r.stargazerCount.None? && r.forkCount.None?
    ensures SumStars(rs + [r]) == SumStars(rs) && SumForks(rs + [r]) == SumForks(rs)
  {
    assert (rs + [r])[..|rs|] == rs;
  }

  /** Entries under keys the run does not touch stay as they were. */
  lemma {:induction false} UpsertReposFrame(t: Table, userId: UserId, rs: seq<RepositoryNode>,
                                            readme: (string, string) -> Option<string>, token: string, i: EntryId)
    requires WellFormed(t) && i in t.rows
    requires forall k :: 0 <= k < |rs| ==> t.rows[i].key != RepoKey(userId, rs[k])
    ensures UpsertRepos(t, userId, rs, readme, token).rows[i] == t.rows[i]
  {
    if rs != [] {
      UpsertReposFrame(t, userId, rs[..|rs| - 1], readme, token, i);
    }
  }

  /** The last repository's upsert: its entry is stored, and entries under
      other keys stay as they were. */
  lemma UpsertReposLast(t: Table, userId: UserId, rs: seq<RepositoryNode>,
                        readme: (string, string) -> Option<string>, token: string)
    requires WellFormed(t) && rs != []
    ensures var last := rs[|rs| - 1];
            var r := UpsertRepos(t, userId, rs, readme, token);
            var rp := UpsertRepos(t, userId, rs[..|rs| - 1], readme, token);
            && (exists i :: i in r.rows && r.rows[i] == RepoEntry(userId, last, readme(last.url, token)))
            && (forall i :: i in rp.rows && rp.rows[i].key != RepoKey(userId, last) ==> i in r.rows && r.rows[i] == rp.rows[i])
  {
    var last := rs[|rs| - 1];
    var e := RepoEntry(userId, last, readme(last.url, token));
    var rp := UpsertRepos(t, userId, rs[..|rs| - 1], readme, token);
    assert UpsertRepos(t, userId, rs, readme, token) == UpsertTable(rp, e.key, e.content, e.metadata);
    assert KbEntry(e.key, e.content, e.metadata) == e;
  }

  /** A repository whose URL is not pinned again later ends up stored with its
      own content and metadata. */
  lemma {:induction false} UpsertReposStores(t: Table, userId: UserId, rs: seq<RepositoryNode>,
                                             readme: (string, string) -> Option<string>, token: string, k: nat)
    requires WellFormed(t) && k < |rs|
    requires forall m :: k < m < |rs| ==> rs[m].url != rs[k].url
    ensures var r := UpsertRepos(t, userId, rs, readme, token);
            exists i :: i in r.rows && r.rows[i] == RepoEntry(userId, rs[k], readme(rs[k].url, token))
  {
    UpsertReposLast(t, userId, rs, readme, token);
    var p := rs[..|rs| - 1];
    if k < |rs| - 1 {
      UpsertReposStores(t, userId, p, readme, token, k);
      var rp := UpsertRepos(t, userId, p, readme, token);
      var i :| i in rp.rows && rp.rows[i] == RepoEntry(userId, p[k], readme(p[k].url, token));
      assert p[k] == rs[k];
      assert rp.rows[i].key != RepoKey(userId, rs[|rs| - 1]);
    }
  }

  /** One step of the fold: each summary of a prefix one longer is the old
      summary updated with the next repository. */
  lemma FoldStep(repos: seq<RepositoryNode>, i: nat, t: Table, userId: UserId,
                 readme: (string, string) -> Option<string>, token: string)
    requires i < |repos| && WellFormed(t)
    ensures SumStars(repos[..i + 1]) == SumStars(repos[..i]) + StarsOf(repos[i])
    ensures SumForks(repos[..i + 1]) == SumForks(repos[..i]) + ForksOf(repos[i])
    ensures var h := Histogram(repos[..i]);
            var l := LanguageOf(repos[i]);
            Histogram(repos[..i + 1]) == h[l := (if l in h then h[l] else 0) + 1]
    ensures TopicUnion(repos[..i + 1]) == TopicUnion(repos[..i]) + TopicSet(repos[i])
    ensures Summaries(repos[..i + 1]) == Summaries(repos[..i]) + [SummaryOf(repos[i])]
    ensures var e := RepoEntry(userId, repos[i], readme(repos[i].url, token));
            UpsertRepos(t, userId, repos[..i + 1], readme, token)
              == UpsertTable(UpsertRepos(t, userId, repos[..i], readme, token), e.key, e.content, e.metadata)
  {
    assert repos[..i + 1][..i] == repos[..i];
    assert repos[..i + 1][i] == repos[i];
  }

  // ---- the service -------------------------------------------------------

  /** The loop of ingestGitHubData: fold the totals, histogram, topics and
      summaries, and upsert each repository's entry. */
  method FoldPinnedRepos(db: Database, userId: UserId, repos: seq<RepositoryNode>,
                         fetchReadme: (string, string) -> Option<string>, token: string)
    returns (totalStars: int, totalForks: int, languages: map<string, nat>,
             topics: set<string>, summaries: seq<RepoSummary>)
    requires db.Valid()
    modifies db
    ensures db.Valid()
    ensures totalStars == SumStars(repos) && totalForks == SumForks(repos)
    ensures languages == Histogram(repos) && topics == TopicUnion(repos)
    ensures summaries == Summaries(repos)
    ensures db.kb == UpsertRepos(old(db.kb), userId, repos, fetchReadme, token)
    ensures db.users == old(db.users) && db.profiles == old(db.profiles) && db.jobs == old(db.jobs)
  {
    summaries, languages, topics := [], map[], {};
    totalStars, totalForks := 0, 0;
    var i := 0;
    while i < |repos|
      invariant 0 <= i <= |repos|
      invariant db.Valid()
      invariant totalStars == SumStars(repos[..i]) && totalForks == SumForks(repos[..i])
      invariant languages == Histogram(repos[..i])
      invariant topics == TopicUnion(repos[..i])
      invariant summaries == Summaries(repos[..i])
      invariant db.kb == UpsertRepos(old(db.kb), userId, repos[..i], fetchReadme, token)
      invariant db.users == old(db.users) && db.profiles == old(db.profiles) && db.jobs == old(db.jobs)
    {
      var repo := repos[i];
      FoldStep(repos, i, old(db.kb), userId, fetchReadme, token);
      totalStars := totalStars + StarsOf(repo);
      totalForks := totalForks + ForksOf(repo);
      var lang := LanguageOf(repo);
      languages := languages[lang := (if lang in languages then languages[lang] else 0) + 1];
      topics := topics + TopicSet(repo);
      summaries := summaries + [SummaryOf(repo)];

      var readme := fetchReadme(repo.url, token);
      var entry := RepoEntry(userId, repo, readme);
      db.Upsert(entry.key, entry.content, entry.metadata);
      i := i + 1;
    }
    assert repos[..i] == repos;
  }

  /** The pinned repositories of a response, when every wrapper on the way is
      present. */
  function PinnedNodes(resp: GraphQLResponse): Option<seq<RepositoryNode>>
    requires resp.data.Some? && resp.data.value.user.Some?
  {
    var pinned := resp.data.value.user.value.pinnedItems;
    if pinned.None? then None else pinned.value.nodes
  }

  /** ingestGitHubData. `fetchPinned(username, token)` and `fetchReadme(url, token)`
      are the GraphQL and REST clients; `now` is the clock. */
  method IngestGitHubData(db: Database, userId: UserId,
                          fetchPinned: (string, string) -> Option<GraphQLResponse>,
                          fetchReadme: (string, string) -> Option<string>,
                          now: Instant)
    returns (out: Outcome<IngestionResult>)
    requires db.Valid()
    modifies db
    ensures db.Valid()
    ensures userId !in old(db.users) ==>
              out == Threw(JavaException(IllegalArgument, UserNotFoundPrefix + userId))
              && unchanged(db)
    ensures userId in old(db.users) ==>
              var u := old(db.users)[userId];
              var resp := fetchPinned(u.githubUsername, u.githubToken);
              if resp.None? || resp.value.data.None? || resp.value.data.value.user.None? then
                out == Returned(IngestionResult(false, NoDataMessage, 0, [])) && unchanged(db)
              else if PinnedNodes(resp.value).None? then
                out == Threw(NullPointerException()) && unchanged(db)
              else
                var rs := PinnedNodes(resp.value).value;
                && out == Returned(IngestionResult(true, SuccessMessage, |rs|, Names(rs)))
                && db.kb == UpsertRepos(old(db.kb), userId, rs, fetchReadme, u.githubToken)
                && db.profiles == old(db.profiles)[userId := WithBlob(
                     if userId in old(db.profiles) then Some(old(db.profiles)[userId]) else None,
                     GitHubBlob(StatsOf(rs, now)), now)]
                && db.users == old(db.users) && db.jobs == old(db.jobs)
  {
    if userId !in db.users {
      return Threw(JavaException(IllegalArgument, UserNotFoundPrefix + userId));
    }
    var user := db.users[userId];
    var response := fetchPinned(user.githubUsername, user.githubToken);
    if response.None? || response.value.data.None? || response.value.data.value.user.None? {
      return Returned(IngestionResult(false, NoDataMessage, 0, []));
    }
    var nodes := PinnedNodes(response.value);
    if nodes.None? {
      return Threw(NullPointerException());
    }
    var repos := nodes.value;
    var totalStars, totalForks, languages, topics, summaries :=
      FoldPinnedRepos(db, userId, repos, fetchReadme, user.githubToken);
    var stats := GitHubStats(totalStars, totalForks, |repos|, summaries, languages, topics, now);
    db.SaveBlob(userId, GitHubBlob(stats), now);
    return Returned(IngestionResult(true, SuccessMessage, |repos|, Names(repos)));
  }
}
