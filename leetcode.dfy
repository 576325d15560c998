/** LeetCode ingestion: read the profile, submission, contest and language
    responses (JSON trees), build the stats blob, render the text stored in the
    knowledge base, and save both. */
module LeetCodeIngestion {
  import opened Wrappers
  import opened Strings
  import opened Json
  import opened Entities
  import opened Store

  const SourceType: string := "leetcode"
  const ProfileUrlPrefix: string := "https://leetcode.com/u/"
  const NotFoundPrefix: string := "LeetCode user not found: "
  const SuccessMessage: string := "Successfully ingested LeetCode data"
  const UserNotFoundPrefix: string := "User not found: "
  /** How many recent submissions are requested from LeetCode. */
  const RecentSubmissionsLimit: int := 20
  /** How many languages and submissions the content text lists. */
  const LanguagesShown: nat := 5
  const SubmissionsShown: nat := 10

  datatype IngestionResult = IngestionResult(success: bool, message: string, problemsSolved: int)

  // ---- the profile check -------------------------------------------------

  datatype ProfileStatus = Found | NotFound | Crashes

  /** The guard of ingestLeetCodeData on the profile response. `get("data")`
      followed by `get("matchedUser")` yields Java null unless "data" is an
      object holding "matchedUser", and calling isNull on that null throws. */
  function ProfileStatusOf(profile: Option<Json>): (r: ProfileStatus)
    ensures profile.None? ==> r == NotFound
    ensures profile.Some? && !Has(profile.value, "data") ==> r == NotFound
    ensures r == Found ==> profile.Some? && Has(profile.value, "data")
                           && Has(Get(profile.value, "data").value, "matchedUser")
                           && !IsNull(Get(Get(profile.value, "data").value, "matchedUser").value)
    ensures r == NotFound <==>
              profile.None? || !Has(profile.value, "data")
              || (Has(Get(profile.value, "data").value, "matchedUser")
                  && IsNull(Get(Get(profile.value, "data").value, "matchedUser").value))
    ensures r == Crashes <==>
              profile.Some? && Has(profile.value, "data")
              && !Has(Get(profile.value, "data").value, "matchedUser")
  {
    if profile.None? || !Has(profile.value, "data") then NotFound
    else
      var matched := Get(Get(profile.value, "data").value, "matchedUser");
      if matched.None? then Crashes
      else if IsNull(matched.value) then NotFound
      else Found
  }

  /** A JSON-null matchedUser is "not found"; a "data" object without the key,
      or a "data" that is not an object, throws instead. */
  lemma ProfileStatusCases(data: Json)
    ensures ProfileStatusOf(Some(JObject(map["data" := data]))) ==
              if data.JObject? && "matchedUser" in data.fields then
                (if data.fields["matchedUser"].JNull? then NotFound else Found)
              else Crashes
  {
  }

  /** A present response without "data", such as `{}` or an errors-only
      reply, is "not found", whatever else it holds. */
  lemma DataLessProfileNotFound(errors: Json)
    ensures ProfileStatusOf(Some(JObject(map[]))) == NotFound
    ensures ProfileStatusOf(Some(JObject(map["errors" := errors]))) == NotFound
    ensures ProfileStatusOf(Some(JNull)) == NotFound
  {
  }

  // ---- acSubmissionNum ---------------------------------------------------

  function Difficulty(stat: Json): string { AsText(Path(stat, "difficulty")) }
  function Count(stat: Json): int { AsIntOr(Path(stat, "count"), 0) }

  /** The count of the last entry labelled `tag`, or 0 when none is: what the
      switch in the loop leaves in that difficulty's variable. */
  function LastCount(stats: seq<Json>, tag: string): int {
    if stats == [] then 0
    else if Difficulty(stats[|stats| - 1]) == tag then Count(stats[|stats| - 1])
    else LastCount(stats[..|stats| - 1], tag)
  }

  /** LastCount picks the last labelled entry and ignores everything before it. */
  lemma {:induction false} LastCountIsLast(stats: seq<Json>, tag: string, k: nat)
    requires k < |stats| && Difficulty(stats[k]) == tag
    requires forall m :: k < m < |stats| ==> Difficulty(stats[m]) != tag
    ensures LastCount(stats, tag) == Count(stats[k])
  {
    if k < |stats| - 1 {
      var p := stats[..|stats| - 1];
      assert p[k] == stats[k];
      LastCountIsLast(p, tag, k);
    }
  }

  /** A tag no entry carries leaves its count at 0. */
  lemma {:induction false} LastCountAbsent(stats: seq<Json>, tag: string)
    requires forall m :: 0 <= m < |stats| ==> Difficulty(stats[m]) != tag
    ensures LastCount(stats, tag) == 0
  {
    if stats != [] {
      LastCountAbsent(stats[..|stats| - 1], tag);
    }
  }

  /** The switch over acSubmissionNum: each difficulty's variable ends up with
      the last count of that tag; other labels are ignored. */
  method CountDifficulties(stats: seq<Json>) returns (total: int, easy: int, medium: int, hard: int)
    ensures total == LastCount(stats, "All") && easy == LastCount(stats, "Easy")
    ensures medium == LastCount(stats, "Medium") && hard == LastCount(stats, "Hard")
  {
    total, easy, medium, hard := 0, 0, 0, 0;
    var i := 0;
    while i < |stats|
      invariant 0 <= i <= |stats|
      invariant total == LastCount(stats[..i], "All") && easy == LastCount(stats[..i], "Easy")
      invariant medium == LastCount(stats[..i], "Medium") && hard == LastCount(stats[..i], "Hard")
    {
      assert stats[..i + 1][..i] == stats[..i];
      var difficulty := Difficulty(stats[i]);
      var count := Count(stats[i]);
      if difficulty == "All" {
        total := count;
      } else if difficulty == "Easy" {
        easy := count;
      } else if difficulty == "Medium" {
        medium := count;
      } else if difficulty == "Hard" {
        hard := count;
      }
      i := i + 1;
    }
    assert stats[..i] == stats;
  }

  // ---- badges ------------------------------------------------------------

  function BadgeName(badge: Json): string { AsText(Path(badge, "name")) }

  function BadgeNamesOf(badges: seq<Json>): (r: seq<string>)
    ensures |r| == |badges|
    ensures forall i :: 0 <= i < |badges| ==> r[i] == BadgeName(badges[i])
  {
    seq(|badges|, i requires 0 <= i < |badges| => BadgeName(badges[i]))
  }

  /** The badge loop: one name per badge, in array order. */
  method CollectBadgeNames(badges: seq<Json>) returns (names: seq<string>)
    ensures names == BadgeNamesOf(badges)
  {
    names := [];
    var i := 0;
    while i < |badges|
      invariant 0 <= i <= |badges|
      invariant names == BadgeNamesOf(badges[..i])
    {
      names := names + [BadgeName(badges[i])];
      i := i + 1;
    }
    assert badges[..i] == badges;
  }

  // ---- language problem counts -------------------------------------------

  function LanguageName(lang: Json): string { AsText(Path(lang, "languageName")) }
  function ProblemsSolved(lang: Json): int { AsIntOr(Path(lang, "problemsSolved"), 0) }

  /** The map the `put` loop builds: a later entry for a language overwrites. */
  function LanguageMap(langs: seq<Json>): map<string, int> {
    if langs == [] then map[]
    else LanguageMap(langs[..|langs| - 1])[LanguageName(langs[|langs| - 1]) := ProblemsSolved(langs[|langs| - 1])]
  }

  /** A language is a key exactly when some entry names it, and its value is
      the count of the last entry naming it. */
  lemma {:induction false} LanguageMapLastWins(langs: seq<Json>, k: nat)
    requires k < |langs|
    requires forall m :: k < m < |langs| ==> LanguageName(langs[m]) != LanguageName(langs[k])
    ensures LanguageName(langs[k]) in LanguageMap(langs)
    ensures LanguageMap(langs)[LanguageName(langs[k])] == ProblemsSolved(langs[k])
  {
    if k < |langs| - 1 {
      var p := langs[..|langs| - 1];
      assert p[k] == langs[k];
      LanguageMapLastWins(p, k);
    }
  }

  lemma {:induction false} LanguageMapKeys(langs: seq<Json>, name: string)
    ensures name in LanguageMap(langs) <==> exists m :: 0 <= m < |langs| && LanguageName(langs[m]) == name
  {
    if langs != [] {
      var p := langs[..|langs| - 1];
      LanguageMapKeys(p, name);
      if exists m :: 0 <= m < |p| && LanguageName(p[m]) == name {
        var m :| 0 <= m < |p| && LanguageName(p[m]) == name;
        assert langs[m] == p[m];
      }
      if exists m :: 0 <= m < |langs| && LanguageName(langs[m]) == name {
        var m :| 0 <= m < |langs| && LanguageName(langs[m]) == name;
        if m < |p| {
          assert p[m] == langs[m];
        }
      }
    }
  }

  method CollectLanguageCounts(langs: seq<Json>) returns (counts: map<string, int>)
    ensures counts == LanguageMap(langs)
  {
    counts := map[];
    var i := 0;
    while i < |langs|
      invariant 0 <= i <= |langs|
      invariant counts == LanguageMap(langs[..i])
    {
      assert langs[..i + 1][..i] == langs[..i];
      counts := counts[LanguageName(langs[i]) := ProblemsSolved(langs[i])];
      i := i + 1;
    }
    assert langs[..i] == langs;
  }

  // ---- recent submissions ------------------------------------------------

  function SubmissionOf(sub: Json): RecentSubmission {
    RecentSubmission(AsText(Path(sub, "title")), AsText(Path(sub, "titleSlug")),
                     AsText(Path(sub, "lang")), AsLong(Path(sub, "timestamp")))
  }

  function SubmissionsOf(subs: seq<Json>): (r: seq<RecentSubmission>)
    ensures |r| == |subs|
    ensures forall i :: 0 <= i < |subs| ==> r[i] == SubmissionOf(subs[i])
  {
    seq(|subs|, i requires 0 <= i < |subs| => SubmissionOf(subs[i]))
  }

  method CollectSubmissions(subs: seq<Json>) returns (recent: seq<RecentSubmission>)
    ensures recent == SubmissionsOf(subs)
  {
    recent := [];
    var i := 0;
    while i < |subs|
      invariant 0 <= i <= |subs|
      invariant recent == SubmissionsOf(subs[..i])
    {
      recent := recent + [SubmissionOf(subs[i])];
      i := i + 1;
    }
    assert subs[..i] == subs;
  }

  // ---- buildLeetCodeStats -----------------------------------------------

  function MatchedUser(profile: Json): Json { Path(Path(profile, "data"), "matchedUser") }

  /** A response's node under "data", when the response is there and has "data". */
  function DataOf(response: Option<Json>): Option<Json> {
    if response.Some? && Has(response.value, "data") then Some(Path(response.value, "data")) else None
  }

  /** The four difficulty counts, set only when acSubmissionNum is an array. */
  datatype Solved = Solved(total: int, easy: int, medium: int, hard: int)

  function SolvedOf(matchedUser: Json): Option<Solved> {
    var ac := Path(Path(matchedUser, "submitStatsGlobal"), "acSubmissionNum");
    if IsArray(ac) then
      var items := Elements(ac);
      Some(Solved(LastCount(items, "All"), LastCount(items, "Easy"),
                  LastCount(items, "Medium"), LastCount(items, "Hard")))
    else None
  }

  function BadgesOf(matchedUser: Json): Option<seq<string>> {
    var badges := Path(matchedUser, "badges");
    if IsArray(badges) then Some(BadgeNamesOf(Elements(badges))) else None
  }

  function ActiveBadgeOf(matchedUser: Json): Option<string> {
    var active := Path(matchedUser, "activeBadge");
    if !IsNull(active) && Has(active, "name") then Some(AsText(Path(active, "name"))) else None
  }

  /** The userContestRanking node, when the contest fields are to be set: the
      response has "data" and the node found there is not JSON null. */
  function ContestRankingOf(contest: Option<Json>): Option<Json> {
    var data := DataOf(contest);
    if data.Some? && !IsNull(Path(data.value, "userContestRanking"))
    then Some(Path(data.value, "userContestRanking")) else None
  }

  function LanguageStatsOf(language: Option<Json>): Option<map<string, int>> {
    var data := DataOf(language);
    if data.None? then None
    else
      var langs := Path(Path(data.value, "matchedUser"), "languageProblemCount");
      if IsArray(langs) then Some(LanguageMap(Elements(langs))) else None
  }

  function RecentSubmissionsOf(submissions: Option<Json>): Option<seq<RecentSubmission>> {
    var data := DataOf(submissions);
    if data.None? then None
    else
      var list := Path(data.value, "recentAcSubmissionList");
      if IsArray(list) then Some(SubmissionsOf(Elements(list))) else None
  }

  /** The blob, given what each part of the build produced. */
  function Assemble(matchedUser: Json, solved: Option<Solved>, ranking: Option<Json>,
                    languageStats: Option<map<string, int>>, badges: Option<seq<string>>,
                    activeBadge: Option<string>, recent: Option<seq<RecentSubmission>>): LeetCodeStats
  {
    var pn := Path(matchedUser, "profile");
    LeetCodeStats(
      username := AsText(Path(matchedUser, "username")),
      ranking := AsIntOr(Path(pn, "ranking"), 0),
      reputation := AsIntOr(Path(pn, "reputation"), 0),
      starRating := AsDoubleOr(Path(pn, "starRating"), 0.0),
      aboutMe := AsTextOr(Path(pn, "aboutMe"), ""),
      totalSolved := if solved.Some? then Some(solved.value.total) else None,
      easySolved := if solved.Some? then Some(solved.value.easy) else None,
      mediumSolved := if solved.Some? then Some(solved.value.medium) else None,
      hardSolved := if solved.Some? then Some(solved.value.hard) else None,
      contestsAttended := if ranking.Some? then Some(AsIntOr(Path(ranking.value, "attendedContestsCount"), 0)) else None,
      contestRating := if ranking.Some? then Some(AsDoubleOr(Path(ranking.value, "rating"), 0.0)) else None,
      globalRanking := if ranking.Some? then Some(AsIntOr(Path(ranking.value, "globalRanking"), 0)) else None,
      topPercentage := if ranking.Some? then Some(AsDoubleOr(Path(ranking.value, "topPercentage"), 0.0)) else None,
      languageStats := languageStats,
      badges := badges,
      activeBadge := activeBadge,
      recentSubmissions := recent)
  }

  /** The stats blob buildLeetCodeStats makes of the four responses. */
  function StatsOf(profile: Json, submissions: Option<Json>, contest: Option<Json>,
                   language: Option<Json>): LeetCodeStats
  {
    var mu := MatchedUser(profile);
    Assemble(mu, SolvedOf(mu), ContestRankingOf(contest), LanguageStatsOf(language),
             BadgesOf(mu), ActiveBadgeOf(mu), RecentSubmissionsOf(submissions))
  }

  method ReadActiveBadge(matchedUser: Json) returns (activeBadge: Option<string>)
    ensures activeBadge == ActiveBadgeOf(matchedUser)
  {
    activeBadge := None;
    var active := Path(matchedUser, "activeBadge");
    if !IsNull(active) && Has(active, "name") {
      activeBadge := Some(AsText(Path(active, "name")));
    }
  }

  method ReadContestRanking(contest: Option<Json>) returns (ranking: Option<Json>)
    ensures ranking == ContestRankingOf(contest)
  {
    ranking := None;
    if contest.Some? && Has(contest.value, "data") {
      var node := Path(Path(contest.value, "data"), "userContestRanking");
      if !IsNull(node) {
        ranking := Some(node);
      }
    }
  }

  method ReadSolved(matchedUser: Json) returns (solved: Option<Solved>)
    ensures solved == SolvedOf(matchedUser)
  {
    solved := None;
    var ac := Path(Path(matchedUser, "submitStatsGlobal"), "acSubmissionNum");
    if IsArray(ac) {
      var total, easy, medium, hard := CountDifficulties(Elements(ac));
      solved := Some(Solved(total, easy, medium, hard));
    }
  }

  method ReadBadges(matchedUser: Json) returns (badgeNames: Option<seq<string>>)
    ensures badgeNames == BadgesOf(matchedUser)
  {
    badgeNames := None;
    var badges := Path(matchedUser, "badges");
    if IsArray(badges) {
      var names := CollectBadgeNames(Elements(badges));
      badgeNames := Some(names);
    }
  }

  method ReadLanguageStats(language: Option<Json>) returns (languageStats: Option<map<string, int>>)
    ensures languageStats == LanguageStatsOf(language)
  {
    languageStats := None;
    if language.Some? && Has(language.value, "data") {
      var langs := Path(Path(Path(language.value, "data"), "matchedUser"), "languageProblemCount");
      if IsArray(langs) {
        var counts := CollectLanguageCounts(Elements(langs));
        languageStats := Some(counts);
      }
    }
  }

  method ReadSubmissions(submissions: Option<Json>) returns (recent: Option<seq<RecentSubmission>>)
    ensures recent == RecentSubmissionsOf(submissions)
  {
    recent := None;
    if submissions.Some? && Has(submissions.value, "data") {
      var list := Path(Path(submissions.value, "data"), "recentAcSubmissionList");
      if IsArray(list) {
        var subs := CollectSubmissions(Elements(list));
        recent := Some(subs);
      }
    }
  }

  /** buildLeetCodeStats, part by part. */
  method BuildLeetCodeStats(profile: Json, submissions: Option<Json>, contest: Option<Json>,
                            language: Option<Json>) returns (stats: LeetCodeStats)
    ensures stats == StatsOf(profile, submissions, contest, language)
  {
    var mu := MatchedUser(profile);
    var solved := ReadSolved(mu);
    var badgeNames := ReadBadges(mu);

    var activeBadge := ReadActiveBadge(mu);
    var ranking := ReadContestRanking(contest);
    var languageStats := ReadLanguageStats(language);
    var recent := ReadSubmissions(submissions);
    stats := Assemble(mu, solved, ranking, languageStats, badgeNames, activeBadge, recent);
  }

  /** The optional responses never make the build fail, and a missing or
      null-data response leaves its fields unset. */
  lemma OptionalSectionsUnset(profile: Json)
    ensures var s := StatsOf(profile, None, None, None);
            s.contestsAttended.None? && s.contestRating.None? && s.globalRanking.None?
            && s.topPercentage.None? && s.languageStats.None? && s.recentSubmissions.None?
    ensures var s := StatsOf(profile, Some(JObject(map[])), Some(JObject(map[])), Some(JObject(map[])));
            s.contestRating.None? && s.languageStats.None? && s.recentSubmissions.None?
  {
  }

  /** A contest response whose "data" lacks userContestRanking still sets the
      contest fields, to 0: `path` yields a MissingNode, which is not null. */
  lemma MissingContestRankingCountsAsZero(profile: Json, submissions: Option<Json>, language: Option<Json>)
    ensures var s := StatsOf(profile, submissions, Some(JObject(map["data" := JObject(map[])])), language);
            s.contestsAttended == Some(0) && s.contestRating == Some(0.0) && s.globalRanking == Some(0)
  {
  }

  /** A JSON-null userContestRanking leaves the contest fields unset. */
  lemma NullContestRankingIsUnset(profile: Json, submissions: Option<Json>, language: Option<Json>)
    ensures var c := Some(JObject(map["data" := JObject(map["userContestRanking" := JNull])]));
            StatsOf(profile, submissions, c, language).contestRating.None?
  {
  }

  /** The active badge is set exactly when the matched user's activeBadge is
      an object with a "name" field, and then it is that field's text. A JSON
      null, a MissingNode or an object without "name" leaves it unset. */
  lemma ActiveBadgeCases(profile: Json, submissions: Option<Json>, contest: Option<Json>, language: Option<Json>)
    ensures var a := Path(MatchedUser(profile), "activeBadge");
            var s := StatsOf(profile, submissions, contest, language);
            (s.activeBadge.Some? <==> a.JObject? && "name" in a.fields)
            && (a.JObject? && "name" in a.fields ==> s.activeBadge == Some(AsText(a.fields["name"])))
            && (a.JNull? || a.JMissing? ==> s.activeBadge.None?)
  {
  }

  /** An active badge named "Knight" is reported; a null one, and a matched
      user without the field, report none. */
  lemma ActiveBadgeExamples()
    ensures var p := (badge: Json) => JObject(map["data" := JObject(map["matchedUser" := JObject(map["activeBadge" := badge])])]);
            StatsOf(p(JObject(map["name" := JText("Knight")])), None, None, None).activeBadge == Some("Knight")
            && StatsOf(p(JNull), None, None, None).activeBadge.None?
            && StatsOf(p(JObject(map[])), None, None, None).activeBadge.None?
    ensures StatsOf(JObject(map["data" := JObject(map["matchedUser" := JObject(map[])])]), None, None, None).activeBadge.None?
  {
  }

  // ---- top languages -----------------------------------------------------

  datatype LanguageCount = LanguageCount(name: string, solved: int)

  function NamesOf(top: seq<LanguageCount>): set<string> {
    set i | 0 <= i < |top| :: top[i].name
  }

  /** `top` is what sorting the language map by count, descending, and keeping
      the first five gives, for some order among equal counts. */
  ghost predicate IsTopLanguages(m: map<string, int>, top: seq<LanguageCount>) {
    && |top| == Min(LanguagesShown, |m|)
    && (forall i :: 0 <= i < |top| ==> top[i].name in m && m[top[i].name] == top[i].solved)
    && (forall i, j :: 0 <= i < j < |top| ==> top[i].name != top[j].name && top[i].solved >= top[j].solved)
    && (forall l, i :: l in m && l !in NamesOf(top) && 0 <= i < |top| ==> m[l] <= top[i].solved)
  }

  /** Among finitely many keys of a map, one has the largest value. */
  lemma {:induction false} MaxKeyExists(m: map<string, int>, keys: set<string>)
    requires keys != {} && keys <= m.Keys
    ensures exists k :: k in keys && forall l :: l in keys ==> m[l] <= m[k]
    decreases |keys|
  {
    var k :| k in keys;
    var others := keys - {k};
    if others != {} {
      MaxKeyExists(m, others);
      var b :| b in others && forall l :: l in others ==> m[l] <= m[b];
      if m[k] <= m[b] {
        forall l | l in keys ensures m[l] <= m[b] {
          if l != k {
            assert l in others;
          }
        }
      } else {
        forall l | l in keys ensures m[l] <= m[k] {
          if l != k {
            assert l in others;
          }
        }
      }
    } else {
      forall l | l in keys ensures m[l] <= m[k] {
        assert l in others + {k};
      }
    }
  }

  lemma NamesOfSnoc(top: seq<LanguageCount>, next: LanguageCount)
    ensures NamesOf(top + [next]) == NamesOf(top) + {next.name}
  {
    var t := top + [next];
    forall x | x in NamesOf(t) ensures x in NamesOf(top) + {next.name} {
      var i :| 0 <= i < |t| && t[i].name == x;
      if i < |top| {
        assert top[i].name == x;
      }
    }
    forall x | x in NamesOf(top) ensures x in NamesOf(t) {
      var i :| 0 <= i < |top| && top[i].name == x;
      assert t[i].name == x;
    }
    assert t[|top|].name == next.name;
  }

  /** What holds after some languages have been taken: `top` lists them in
      non-increasing order, `rest` holds the others, each no larger than any
      taken one. */
  ghost predicate Selection(m: map<string, int>, top: seq<LanguageCount>, rest: set<string>) {
    && rest == m.Keys - NamesOf(top)
    && |top| + |rest| == |m|
    && (forall i :: 0 <= i < |top| ==> top[i].name in m && m[top[i].name] == top[i].solved)
    && (forall i, j :: 0 <= i < j < |top| ==> top[i].name != top[j].name && top[i].solved >= top[j].solved)
    && (forall l, i :: l in rest && 0 <= i < |top| ==> m[l] <= top[i].solved)
  }

  /** Taking a largest remaining language keeps the selection invariant. */
  lemma SelectionStep(m: map<string, int>, top: seq<LanguageCount>, rest: set<string>, best: string)
    requires Selection(m, top, rest)
    requires best in rest && forall l :: l in rest ==> m[l] <= m[best]
    ensures Selection(m, top + [LanguageCount(best, m[best])], rest - {best})
  {
    var next := LanguageCount(best, m[best]);
    var t := top + [next];
    NamesOfSnoc(top, next);
    assert best !in NamesOf(top);
    forall i | 0 <= i < |t| ensures t[i].name in m && m[t[i].name] == t[i].solved {
      if i < |top| {
        assert t[i] == top[i];
      }
    }
    forall i, j | 0 <= i < j < |t| ensures t[i].name != t[j].name && t[i].solved >= t[j].solved {
      if j < |top| {
        assert t[i] == top[i] && t[j] == top[j];
      } else {
        assert t[i] == top[i] && t[j] == next;
        assert top[i].name in NamesOf(top);
      }
    }
    forall l, i | l in rest - {best} && 0 <= i < |t| ensures m[l] <= t[i].solved {
      if i < |top| {
        assert t[i] == top[i];
      }
    }
  }

  /** A selection that has five languages, or has run out of them, is the top
      of the map. */
  lemma SelectionDone(m: map<string, int>, top: seq<LanguageCount>, rest: set<string>)
    requires Selection(m, top, rest) && |top| <= LanguagesShown
    requires |top| == LanguagesShown || rest == {}
    ensures IsTopLanguages(m, top)
  {
    forall l, i | l in m && l !in NamesOf(top) && 0 <= i < |top| ensures m[l] <= top[i].solved {
      assert l in rest;
    }
  }

  /** The sorted-and-limited stream over the language map: repeatedly take a
      language with the largest count among those not yet taken. */
  method TopLanguages(m: map<string, int>) returns (top: seq<LanguageCount>)
    ensures IsTopLanguages(m, top)
  {
    top := [];
    var rest := m.Keys;
    assert NamesOf(top) == {};
    while |top| < LanguagesShown && rest != {}
      invariant Selection(m, top, rest) && |top| <= LanguagesShown
      decreases |rest|
    {
      MaxKeyExists(m, rest);
      var best :| best in rest && forall l :: l in rest ==> m[l] <= m[best];
      SelectionStep(m, top, rest, best);
      top := top + [LanguageCount(best, m[best])];
      rest := rest - {best};
    }
    SelectionDone(m, top, rest);
  }

  // ---- buildLeetCodeContent ---------------------------------------------

  /** Fixed-point rendering of a double with the given number of decimals
      (`String.format("%.Nf")`), a parameter of the model. */
  type Formatter = (real, nat) -> string

  function NullableIntText(n: Option<int>): string {
    match n
    case Some(v) => IntToString(v)
    case None => NullText
  }

  function ProblemSection(s: LeetCodeStats): string {
    "LeetCode Profile: " + s.username + "\n\n"
      + "=== Problem Statistics ===\n"
      + "Total Problems Solved: " + NullableIntText(s.totalSolved) + "\n"
      + "Easy: " + NullableIntText(s.easySolved) + "\n"
      + "Medium: " + NullableIntText(s.mediumSolved) + "\n"
      + "Hard: " + NullableIntText(s.hardSolved) + "\n\n"
  }

  predicate HasPositiveRating(s: LeetCodeStats) {
    s.contestRating.Some? && s.contestRating.value > 0.0
  }

  function ContestSection(s: LeetCodeStats, fmt: Formatter): string {
    if HasPositiveRating(s) then
      "=== Contest Statistics ===\n"
        + "Contest Rating: " + fmt(s.contestRating.value, 0) + "\n"
        + "Contests Attended: " + NullableIntText(s.contestsAttended) + "\n"
        + "Global Ranking: " + NullableIntText(s.globalRanking) + "\n"
        + "Top Percentage: " + (if s.topPercentage.Some? then fmt(s.topPercentage.value, 2) else NullText)
        + "%\n\n"
    else ""
  }

  function LanguageLines(top: seq<LanguageCount>): string {
    if top == [] then ""
    else top[0].name + ": " + IntToString(top[0].solved) + " problems\n" + LanguageLines(top[1..])
  }

  function LanguageSection(s: LeetCodeStats, top: seq<LanguageCount>): string {
    if s.languageStats.Some? && s.languageStats.value != map[] then
      "=== Programming Languages ===\n" + LanguageLines(top) + "\n"
    else ""
  }

  function BadgeSection(s: LeetCodeStats): string {
    if s.badges.Some? && s.badges.value != [] then
      "=== Badges ===\n" + Join(", ", s.badges.value) + "\n\n"
    else ""
  }

  function SubmissionLines(subs: seq<RecentSubmission>): string {
    if subs == [] then ""
    else "- " + subs[0].title + " (" + subs[0].language + ")\n" + SubmissionLines(subs[1..])
  }

  function SubmissionSection(s: LeetCodeStats): string {
    if s.recentSubmissions.Some? && s.recentSubmissions.value != [] then
      "=== Recent Submissions ===\n" + SubmissionLines(Take(s.recentSubmissions.value, SubmissionsShown))
    else ""
  }

  /** buildLeetCodeContent, given the languages the sorted stream selected. */
  function Content(s: LeetCodeStats, top: seq<LanguageCount>, fmt: Formatter): string {
    ProblemSection(s) + ContestSection(s, fmt) + LanguageSection(s, top) + BadgeSection(s) + SubmissionSection(s)
  }

  method BuildLeetCodeContent(s: LeetCodeStats, fmt: Formatter) returns (content: string, top: seq<LanguageCount>)
    ensures s.languageStats.Some? ==> IsTopLanguages(s.languageStats.value, top)
    ensures content == Content(s, top, fmt)
  {
    top := [];
    if s.languageStats.Some? && s.languageStats.value != map[] {
      top := TopLanguages(s.languageStats.value);
    } else if s.languageStats.Some? {
      assert IsTopLanguages(s.languageStats.value, top);
    }
    content := Content(s, top, fmt);
  }

  /** Only the first ten submissions reach the content text. */
  lemma OnlyTenSubmissionsShown(s: LeetCodeStats, top: seq<LanguageCount>, fmt: Formatter, subs: seq<RecentSubmission>)
    requires |subs| >= SubmissionsShown
    ensures Content(s.(recentSubmissions := Some(subs)), top, fmt)
         == Content(s.(recentSubmissions := Some(subs[..SubmissionsShown])), top, fmt)
  {
    var s1 := s.(recentSubmissions := Some(subs));
    var s2 := s.(recentSubmissions := Some(subs[..SubmissionsShown]));
    assert Take(subs[..SubmissionsShown], SubmissionsShown) == subs[..SubmissionsShown];
    assert SubmissionSection(s1) == SubmissionSection(s2);
    assert ProblemSection(s1) == ProblemSection(s2);
    assert ContestSection(s1, fmt) == ContestSection(s2, fmt);
    assert LanguageSection(s1, top) == LanguageSection(s2, top);
    assert BadgeSection(s1) == BadgeSection(s2);
  }

  /** The language lines are empty exactly when no language was selected. */
  lemma {:induction false} LanguageLinesCount(top: seq<LanguageCount>)
    ensures |top| == 0 <==> LanguageLines(top) == ""
  {
  }

  /** Without a positive rating the contest fields do not affect the text. */
  lemma ContestShownOnlyWithPositiveRating(s: LeetCodeStats, top: seq<LanguageCount>, fmt: Formatter)
    requires !HasPositiveRating(s)
    ensures Content(s, top, fmt)
         == Content(s.(contestsAttended := None, contestRating := None, globalRanking := None,
                       topPercentage := None), top, fmt)
  {
  }

  // ---- ingestLeetCodeData ------------------------------------------------

  function MetadataOf(username: string, s: LeetCodeStats): Metadata {
    LeetCodeMetadata(username, s.totalSolved.GetOr(0), s.contestRating.GetOr(0.0), s.ranking)
  }

  function ProfileKey(userId: UserId, username: string): EntryKey {
    EntryKey(userId, SourceType, ProfileUrlPrefix + username)
  }

  /** The problemsSolved reported on success: the "All" count, or 0 when the
      profile has no acSubmissionNum array. */
  lemma ProblemsSolvedReported(profile: Json, submissions: Option<Json>, contest: Option<Json>, language: Option<Json>)
    ensures var s := StatsOf(profile, submissions, contest, language);
            var ac := Path(Path(MatchedUser(profile), "submitStatsGlobal"), "acSubmissionNum");
            s.totalSolved.GetOr(0) == (if IsArray(ac) then LastCount(Elements(ac), "All") else 0)
  {
  }

  /** ingestLeetCodeData. The four `fetch` parameters are the GraphQL client
      (Java null on any failure); `now` is the clock. */
  method IngestLeetCodeData(db: Database, userId: UserId, username: string,
                            fetchProfile: string -> Option<Json>,
                            fetchSubmissions: (string, int) -> Option<Json>,
                            fetchContest: string -> Option<Json>,
                            fetchLanguages: string -> Option<Json>,
                            fmt: Formatter, now: Instant)
    returns (out: Outcome<IngestionResult>)
    requires db.Valid()
    modifies db
    ensures db.Valid()
    ensures userId !in old(db.users) ==>
              out == Threw(JavaException(IllegalArgument, UserNotFoundPrefix + userId)) && unchanged(db)
    ensures userId in old(db.users) && ProfileStatusOf(fetchProfile(username)) == NotFound ==>
              out == Returned(IngestionResult(false, NotFoundPrefix + username, 0)) && unchanged(db)
    ensures userId in old(db.users) && ProfileStatusOf(fetchProfile(username)) == Crashes ==>
              out == Threw(NullPointerException()) && unchanged(db)
    ensures userId in old(db.users) && ProfileStatusOf(fetchProfile(username)) == Found ==>
              var s := StatsOf(fetchProfile(username).value, fetchSubmissions(username, RecentSubmissionsLimit),
                               fetchContest(username), fetchLanguages(username));
              && out == Returned(IngestionResult(true, SuccessMessage, s.totalSolved.GetOr(0)))
              && db.profiles == old(db.profiles)[userId := WithBlob(
                   if userId in old(db.profiles) then Some(old(db.profiles)[userId]) else None,
                   LeetCodeBlob(s), now)]
              && (exists top :: (s.languageStats.Some? ==> IsTopLanguages(s.languageStats.value, top))
                   && db.kb == UpsertTable(old(db.kb), ProfileKey(userId, username), Content(s, top, fmt),
                                           MetadataOf(username, s)))
              && db.users == old(db.users) && db.jobs == old(db.jobs)
  {
    if userId !in db.users {
      return Threw(JavaException(IllegalArgument, UserNotFoundPrefix + userId));
    }
    var profile := fetchProfile(username);
    var submissions := fetchSubmissions(username, RecentSubmissionsLimit);
    var contest := fetchContest(username);
    var language := fetchLanguages(username);

    var status := ProfileStatusOf(profile);
    if status == NotFound {
      return Returned(IngestionResult(false, NotFoundPrefix + username, 0));
    } else if status == Crashes {
      return Threw(NullPointerException());
    }

    var stats := BuildLeetCodeStats(profile.value, submissions, contest, language);
    db.SaveBlob(userId, LeetCodeBlob(stats), now);

    var content, top := BuildLeetCodeContent(stats, fmt);
    var key := ProfileKey(userId, username);
    db.Upsert(key, content, MetadataOf(username, stats));
    return Returned(IngestionResult(true, SuccessMessage, stats.totalSolved.GetOr(0)));
  }
}
