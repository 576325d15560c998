# Arte ingestion core, modelled in Dafny

Arte builds a knowledge base about a developer from four sources: pinned
GitHub repositories, a LeetCode profile, an uploaded PDF résumé and LinkedIn
job postings. The ingestion service has one coordinator per source. Each
coordinator fetches the source's data and turns it into a statistics blob on
the user's single `user_info` row. It also upserts text entries into the
`user_knowledge_base` table, keyed by `(user id, source type, source URL)`.
Two boundaries expose the coordinators:

- a gRPC service, with single-source endpoints, `ingestAll` and `healthCheck`;
- an HTTP controller, with single-source endpoints and `fullIngestion`.

The API gateway authenticates requests with a JWT. The JWT comes from a bearer
`Authorization` header or an `accessToken` cookie. The gateway refreshes tokens
at `POST /api/auth/refresh`, and after a GitHub OAuth2 login it creates or
updates the user row.

This project models that core:

| file | module | what it models |
|---|---|---|
| `wrappers.dfy` | `Wrappers` | `Option`, Java exceptions, and `Outcome` (returned or threw) |
| `strings.dfy` | `Strings` | `trim`, `isBlank`, `split("\\s+")`, `String.join`, ASCII lower-casing, `Integer.toString` |
| `json.dfy` | `Json` | Jackson's `JsonNode`: `get`, `path` with its MissingNode, `asText`, and the `asInt`, `asLong` and `asDouble` conversions with their integer wrap-around, saturating casts and lenient text parsing |
| `entities.dfy` | `Entities` | users, knowledge-base entries, blobs, LinkedIn job rows |
| `store.dfy` | `Store` | the shared stores: a `Database` class and the upsert on the unique key |
| `github.dfy` | `GitHubIngestion` | the pinned-repository fold, the per-repository upsert, `buildRepoContent` |
| `leetcode.dfy` | `LeetCodeIngestion` | `buildLeetCodeStats` over the JSON tree, `buildLeetCodeContent`, `ingestLeetCodeData` |
| `resume_text.dfy` | `ResumeText` | `isPdfFile`, `cleanText`, `capWords`, `countWords`, the hex fingerprint of `computeHash` |
| `resume_sections.dfy` | `ResumeSections` | the post-processing of skills, experiences, education and summary |
| `resume.dfy` | `ResumeProcessing` | `processResume` |
| `linkedin.dfy` | `LinkedInIngestion` | the job cache and the 10-digit id check |
| `grpc.dfy` | `IngestionGrpc` | the response mapping, `ingestAll`, `healthCheck` |
| `http.dfy` | `IngestionHttp` | the status mapping and `fullIngestion` |
| `cookies.dfy` | `Cookies` | first-match cookie lookup |
| `jwt_filter.dfy` | `JwtFilter` | `extractToken` and `doFilterInternal` |
| `auth_refresh.dfy` | `AuthRefresh` | `refresh` and `createCookie` |
| `oauth.dfy` | `OAuthUsers` | `getPrimaryEmail` and the user upsert of `loadUser` |

Code that changes state step by step is written as methods. This covers the
loops over repositories, difficulties, badges, languages, submissions, skill
pieces, entries, cookies and hex bytes, as well as the store updates. Each
method is proved equal to a specification function, and the promised
properties are proved as lemmas about that function.

External calls are parameters. These are:

- the GitHub and LeetCode clients, the README fetch and the LinkedIn page fetch;
- PDF text extraction and the SHA-256 digest;
- the Unicode letter/digit/punctuation class and `Character.isDigit`;
- the regular expressions that locate résumé sections;
- JWT validation and signing;
- the clock.

Three behaviours of the code that a reader may not expect, and that the model
keeps:

- gRPC `ingestAll` is not an AND of its sources' results. It reports overall
  failure only when the GitHub call throws (`IngestionGrpc.OverallSuccessIsNotAnAnd`).
  HTTP `fullIngestion`, by contrast, is an AND (`IngestionHttp.BoundariesDisagreeOnGitHubFailure`).
- The LinkedIn id check uses `Character.isDigit`, so ten non-ASCII digits pass
  (`LinkedInIngestion.NonAsciiDigitsPass`).
- The JWT filter does not check the token type, so a valid refresh token
  authenticates a request (`JwtFilter.RefreshTokenAuthenticates`).

## Model

| member | source | states |
|---|---|---|
| Wrappers.Take | ingestion/src/main/java/com/arte/ingestion/service/LeetCodeIngestionService.java:235-241 | `limit(n)`: the result is the first `min(n, length)` elements |
| Strings.RegexSpaceIsJavaWhitespace | ingestion/src/main/java/com/arte/ingestion/service/ResumeProcessingService.java:174-177 | every `\s` character is Java whitespace and at most U+0020, so `isBlank` and `trim` both treat it as space |
| Strings.TrimStart | ingestion/src/main/java/com/arte/ingestion/service/ResumeProcessingService.java:162 | the result is no longer than the input and does not start with a trimmable character |
| Strings.TrimEnd | ingestion/src/main/java/com/arte/ingestion/service/ResumeProcessingService.java:162 | the result is no longer than the input and does not end with a trimmable character |
| Strings.TrimStartSuffix | ingestion/src/main/java/com/arte/ingestion/service/ResumeProcessingService.java:162 | what stripping the start leaves is a suffix of the input |
| Strings.TrimEndPrefix | ingestion/src/main/java/com/arte/ingestion/service/ResumeProcessingService.java:162 | what stripping the end leaves is a prefix of the input |
| Strings.Trim | ingestion/src/main/java/com/arte/ingestion/service/ResumeProcessingService.java:162 | `String.trim`: the result is trimmed at both ends and no longer than the input |
| Strings.TrimChars | ingestion/src/main/java/com/arte/ingestion/service/ResumeProcessingService.java:162 | every character of the trimmed text comes from the input |
| Strings.TrimStartOfTrimmed | ingestion/src/main/java/com/arte/ingestion/service/ResumeProcessingService.java:162 | stripping the start of a trimmed text changes nothing |
| Strings.TrimEndOfTrimmed | ingestion/src/main/java/com/arte/ingestion/service/ResumeProcessingService.java:162 | stripping the end of a trimmed text changes nothing |
| Strings.TrimOfTrimmed | ingestion/src/main/java/com/arte/ingestion/service/ResumeProcessingService.java:162 | `trim` of a trimmed text is the text itself |
| Strings.TrimIdempotent | ingestion/src/main/java/com/arte/ingestion/service/ResumeProcessingService.java:162 | trimming twice is trimming once |
| Strings.LowerAscii | api-core/src/main/java/com/arte/apicore/service/auth/filter/JwtAuthenticationFilter.java:56 | `toLowerCase` on one character: upper-case ASCII letters move down by 32 and every other character stays |
| Strings.LowerAsciiString | api-core/src/main/java/com/arte/apicore/service/auth/filter/JwtAuthenticationFilter.java:56 | lower-casing keeps the length and lowers each character |
| Strings.DigitChar | ingestion/src/main/java/com/arte/ingestion/service/LeetCodeIngestionService.java:205-211 | the digit character's code minus '0' is the digit |
| Strings.NatToString | ingestion/src/main/java/com/arte/ingestion/service/LeetCodeIngestionService.java:205-211 | `Integer.toString` of a non-negative value is a non-empty string of ASCII digits |
| Strings.NatToStringRoundTrip | ingestion/src/main/java/com/arte/ingestion/service/LeetCodeIngestionService.java:205-211 | reading back the decimal text of `n` gives `n` |
| Strings.DropSpaces | ingestion/src/main/java/com/arte/ingestion/service/ResumeProcessingService.java:166 | the result is no longer than the input, strictly shorter when the input starts with a space, and does not start with a space |
| Strings.DropSpacesSuffix | ingestion/src/main/java/com/arte/ingestion/service/ResumeProcessingService.java:166 | what dropping a run of spaces leaves is a suffix of the input |
| Strings.Pieces | ingestion/src/main/java/com/arte/ingestion/service/ResumeProcessingService.java:166 | splitting at every maximal run of `\s` gives at least one piece |
| Strings.DropTrailingEmpty | ingestion/src/main/java/com/arte/ingestion/service/ResumeProcessingService.java:166 | Java's `split` keeps a prefix of the pieces, drops only empty ones, and leaves none empty at the end |
| Strings.PiecesHaveNoSpace | ingestion/src/main/java/com/arte/ingestion/service/ResumeProcessingService.java:166 | no piece of `split("\\s+")` contains a space character |
| Strings.PiecesNonEmpty | ingestion/src/main/java/com/arte/ingestion/service/ResumeProcessingService.java:166 | only the first and the last piece can be empty, and the first is not empty when the text starts with a non-space |
| Strings.PiecesUseTextChars | ingestion/src/main/java/com/arte/ingestion/service/ResumeProcessingService.java:166 | every character of a piece comes from the text |
| Strings.PiecesShape | ingestion/src/main/java/com/arte/ingestion/service/ResumeProcessingService.java:166 | the four piece facts above, together |
| Strings.SplitShape | ingestion/src/main/java/com/arte/ingestion/service/ResumeProcessingService.java:166 | a non-empty text that starts with a non-space splits into at least one non-empty, space-free word made of its characters |
| Strings.PiecesCons | ingestion/src/main/java/com/arte/ingestion/service/ResumeProcessingService.java:166 | a non-space character put in front of a text joins that text's first piece |
| Strings.PiecesOfWordPrefix | ingestion/src/main/java/com/arte/ingestion/service/ResumeProcessingService.java:166 | a space-free word put in front of a text extends that text's first piece |
| Strings.SplitJoinRoundTrip | ingestion/src/main/java/com/arte/ingestion/service/ResumeProcessingService.java:165-171 | splitting words joined with single spaces gives the same words back (the `join`/`split` round trip of `capWords`) |
| Strings.JoinStartsWithFirst | ingestion/src/main/java/com/arte/ingestion/service/ResumeProcessingService.java:170 | a join of words starts with the first character of the first word |
| Strings.IsBlank | ingestion/src/main/java/com/arte/ingestion/service/ResumeProcessingService.java:174 | `String.isBlank`: every character is Java whitespace; this definition is the model, and `GitHubIngestion.ReadmeIsSuffix` and `ResumeText.CapThenCount` rely on it |
| Strings.SplitOnSpaceRuns | ingestion/src/main/java/com/arte/ingestion/service/ResumeProcessingService.java:166 | `split("\\s+")`: this definition is the model; `Strings.SplitShape`, `Strings.PiecesShape` and `Strings.SplitJoinRoundTrip` state its properties |
| Strings.Join | ingestion/src/main/java/com/arte/ingestion/service/ResumeProcessingService.java:170 | `String.join`: this definition is the model; `Strings.SplitJoinRoundTrip` and `Strings.JoinStartsWithFirst` state its properties |
| Json.Path | ingestion/src/main/java/com/arte/ingestion/service/LeetCodeIngestionService.java:113-120 | `path` gives the field's node when `get` finds it, and otherwise a MissingNode, never null |
| Json.AsTextOr | ingestion/src/main/java/com/arte/ingestion/service/LeetCodeIngestionService.java:120 | `asText(default)` gives the text of a text node, and the default for null and missing nodes |
| Json.Wrap | ingestion/src/main/java/com/arte/ingestion/service/LeetCodeIngestionService.java:117-118 | an integer node narrowed to `int` or `long` keeps its low bits: the result is in range, congruent to the value modulo 2^32 or 2^64, and equal to it when it already fits |
| Json.TruncateReal | ingestion/src/main/java/com/arte/ingestion/service/LeetCodeIngestionService.java:117-118 | Java's conversion of a double to an integer rounds toward zero, on both signs |
| Json.Clamp | ingestion/src/main/java/com/arte/ingestion/service/LeetCodeIngestionService.java:117-118 | the nearest value of the `int` or `long` range: the input itself when it fits, the bound it passes otherwise |
| Json.CastDouble | ingestion/src/main/java/com/arte/ingestion/service/LeetCodeIngestionService.java:117-118 | the `(int)`/`(long)` cast of a double is in range: NaN gives 0, an infinity gives the bound of its sign, a finite value that rounds into range gives its rounding toward zero |
| Json.ParseIntegerOr | ingestion/src/main/java/com/arte/ingestion/service/LeetCodeIngestionService.java:128 | `parseInt`/`parseLong` of optionally negated digits gives the default or a value in range |
| Json.ParseAsIntegral | ingestion/src/main/java/com/arte/ingestion/service/LeetCodeIngestionService.java:128 | Jackson's lenient parse of a text node always gives the default or a value in range |
| Json.ParseTrimmedIntegral | ingestion/src/main/java/com/arte/ingestion/service/LeetCodeIngestionService.java:128 | the same parse of text that is already trimmed gives the default or a value in range |
| Json.ParseOfTrimmed | ingestion/src/main/java/com/arte/ingestion/service/LeetCodeIngestionService.java:128 | the lenient integer parse of a trimmed text reads it as it stands |
| Json.IntegerTextValues | ingestion/src/main/java/com/arte/ingestion/service/LeetCodeIngestionService.java:128 | digit text reads as its value when it fits and as the default when it overflows; a leading '+' is ignored, a leading '-' negates with the same overflow rule, and empty text gives the default |
| Json.DoubleFallback | ingestion/src/main/java/com/arte/ingestion/service/LeetCodeIngestionService.java:128 | trimmed text starting with a digit that is not all digits is parsed as a double and cast, or gives the default when that parse fails |
| Json.FractionTextTruncates | ingestion/src/main/java/com/arte/ingestion/service/LeetCodeIngestionService.java:128 | text with a decimal point reads as its whole part clamped to the range ("3.7" reads as 3) |
| Json.ExponentTextScales | ingestion/src/main/java/com/arte/ingestion/service/LeetCodeIngestionService.java:128 | text with an exponent reads as the digits times ten to the exponent, clamped ("1e3" reads as 1000) |
| Json.PlusFallback | ingestion/src/main/java/com/arte/ingestion/service/LeetCodeIngestionService.java:128 | a '+' before a non-digit is dropped and the rest goes through parseDouble and the cast |
| Json.PlusMinusTextIsADouble | ingestion/src/main/java/com/arte/ingestion/service/LeetCodeIngestionService.java:128 | "+-" before digits is read as a double and cast, so it saturates where plain negative text overflowing gives the default ("+-5" reads as -5) |
| Json.CastNegated | ingestion/src/main/java/com/arte/ingestion/service/LeetCodeIngestionService.java:128 | casting the negation of a count gives the clamped negated count |
| Json.CastIntegral | ingestion/src/main/java/com/arte/ingestion/service/LeetCodeIngestionService.java:117-118 | casting a double node that holds an integer gives that integer clamped to the range |
| Json.DigitsParseAsDouble | ingestion/src/main/java/com/arte/ingestion/service/LeetCodeIngestionService.java:119 | `parseDouble` of a digit string is its decimal value |
| Json.NegativeDigitsParse | ingestion/src/main/java/com/arte/ingestion/service/LeetCodeIngestionService.java:119 | `parseDouble` of '-' then digits is the negated decimal value |
| Json.FractionParsesAsDouble | ingestion/src/main/java/com/arte/ingestion/service/LeetCodeIngestionService.java:119 | `parseDouble` of digits, a point and digits is the whole part plus the fraction |
| Json.ParsedTextAsDouble | ingestion/src/main/java/com/arte/ingestion/service/LeetCodeIngestionService.java:119 | `asDouble(default)` of a text node that parses to a finite double is that double |
| Json.DecimalTextAsDouble | ingestion/src/main/java/com/arte/ingestion/service/LeetCodeIngestionService.java:119 | `asDouble(default)` of decimal text is its whole part plus its fraction digits divided by ten to their number |
| Json.AsIntOr | ingestion/src/main/java/com/arte/ingestion/service/LeetCodeIngestionService.java:117-118 | `asInt(default)` is always an `int`: an int node's value when it fits, and the default for null, missing, array and object nodes |
| Json.AsLongOr | ingestion/src/main/java/com/arte/ingestion/service/LeetCodeIngestionService.java:193 | `asLong(default)` is always a `long`: an integer node's value when it fits, and the default for null, missing, array and object nodes |
| Json.IntegerNodeWraps | ingestion/src/main/java/com/arte/ingestion/service/LeetCodeIngestionService.java:117-118 | 2^31 in an integer node reads as -2^31 through `asInt` and as itself through `asLong` |
| Json.AsDoubleOr | ingestion/src/main/java/com/arte/ingestion/service/LeetCodeIngestionService.java:119 | `asDouble(default)` gives a double node's value, and the default for null, missing, array and object nodes |
| Store.UpsertTable | ingestion/src/main/java/com/arte/ingestion/service/GitHubIngestionService.java:107-122 | find-then-save keeps the table well formed and stores the new entry under its key; entries under other keys stay unchanged; it adds exactly one id when the key was absent and none when it was present |
| Store.AtMostOnePerKey | processing/src/main/java/com/arte/processing/entity/UserKnowledgeBase.java:19 | the unique constraint: a well-formed table has at most one entry per `(user, type, url)` |
| Store.UpsertLeavesOneEntry | ingestion/src/main/java/com/arte/ingestion/service/LeetCodeIngestionService.java:83-98 | after an upsert the key has exactly one entry, and it holds the new content and metadata |
| Store.UpsertKeepsIdentity | ingestion/src/main/java/com/arte/ingestion/service/ResumeProcessingService.java:113-128 | an existing entry keeps its id and gets its content and metadata replaced in place |
| Store.UpsertIdempotent | ingestion/src/main/java/com/arte/ingestion/service/GitHubIngestionService.java:107-122 | upserting the same entry twice gives the same table as upserting it once |
| Store.BlobOf | ingestion/src/main/java/com/arte/ingestion/entity/UserInfo.java:33-43 | the blob read from a column belongs to that column's source |
| Store.WithBlob | ingestion/src/main/java/com/arte/ingestion/entity/UserInfo.java:33-46 | storing one source's blob replaces that blob, keeps the other sources' blobs, and sets `lastIngestedAt` to now |
| Store.BlobsOfDifferentSourcesCommute | ingestion/src/main/java/com/arte/ingestion/service/GitHubIngestionService.java:136-143 | a later save of another source's blob keeps the earlier blob |
| Store.Database.constructor | ingestion/src/main/java/com/arte/ingestion/entity/UserInfo.java:33-46 | the stores start valid, with the given users and nothing else |
| Store.Database.FindByKey | ingestion/src/main/java/com/arte/ingestion/service/GitHubIngestionService.java:107-108 | `findByUserIdAndSourceTypeAndSourceUrl` finds an entry exactly when one has the key, and the found id holds that key |
| Store.Database.Upsert | ingestion/src/main/java/com/arte/ingestion/service/GitHubIngestionService.java:107-122 | the table becomes `UpsertTable` of the old table; the other stores do not change |
| Store.Database.SaveBlob | ingestion/src/main/java/com/arte/ingestion/service/GitHubIngestionService.java:136-143 | the user's row becomes the found row (or a new one) with the blob stored and `lastIngestedAt` set; nothing else changes |
| Store.Database.SaveJob | ingestion/src/main/java/com/arte/ingestion/service/LinkedInJobIngestionService.java:53-57 | the job row is stored under its job id; nothing else changes |
| GitHubIngestion.SixParts | ingestion/src/main/java/com/arte/ingestion/service/GitHubIngestionService.java:155-181 | where each part of the six-part content text sits |
| GitHubIngestion.BlankDescriptionIsOmitted | ingestion/src/main/java/com/arte/ingestion/service/GitHubIngestionService.java:160-166 | a blank description gives the same content as no description, and the language line follows the header directly |
| GitHubIngestion.DescriptionFollowsUrl | ingestion/src/main/java/com/arte/ingestion/service/GitHubIngestionService.java:157-162 | a non-blank description line comes right after the name and URL lines |
| GitHubIngestion.ReadmeIsSuffix | ingestion/src/main/java/com/arte/ingestion/service/GitHubIngestionService.java:176-178 | a non-blank README is appended after "--- README ---" to the content without README; a null or blank README adds nothing |
| GitHubIngestion.RepoContent | ingestion/src/main/java/com/arte/ingestion/service/GitHubIngestionService.java:155-181 | `buildRepoContent`: this definition is the model; `GitHubIngestion.SixParts`, `GitHubIngestion.BlankDescriptionIsOmitted`, `GitHubIngestion.DescriptionFollowsUrl` and `GitHubIngestion.ReadmeIsSuffix` state its properties |
| GitHubIngestion.Summaries | ingestion/src/main/java/com/arte/ingestion/service/GitHubIngestionService.java:85-91 | one summary per repository, in pinned order |
| GitHubIngestion.Names | ingestion/src/main/java/com/arte/ingestion/service/GitHubIngestionService.java:147-152 | the reported repository names, in pinned order |
| GitHubIngestion.UpsertRepos | ingestion/src/main/java/com/arte/ingestion/service/GitHubIngestionService.java:107-122 | the per-repository upserts keep the table well formed and never remove an entry |
| GitHubIngestion.CountLanguageLast | ingestion/src/main/java/com/arte/ingestion/service/GitHubIngestionService.java:77-78 | counting repositories with a language from the back gives the same count |
| GitHubIngestion.HistogramCounts | ingestion/src/main/java/com/arte/ingestion/service/GitHubIngestionService.java:77-78 | a language is in the distribution exactly when some repository has it (null counts as "Unknown"), and its value is the number of such repositories |
| GitHubIngestion.MapSumRemove | ingestion/src/main/java/com/arte/ingestion/service/GitHubIngestionService.java:77-78 | the sum of a map's values is any key's value plus the sum without that key |
| GitHubIngestion.HistogramTotal | ingestion/src/main/java/com/arte/ingestion/service/GitHubIngestionService.java:77-78 | the distribution's counts add up to the number of pinned repositories |
| GitHubIngestion.StatsOf | ingestion/src/main/java/com/arte/ingestion/service/GitHubIngestionService.java:125-134 | the stats blob: this definition is the model; `GitHubIngestion.HistogramCounts`, `GitHubIngestion.HistogramTotal`, `GitHubIngestion.TopicUnionMembers` and `GitHubIngestion.FoldPinnedRepos` state its parts |
| GitHubIngestion.TopicUnionMembers | ingestion/src/main/java/com/arte/ingestion/service/GitHubIngestionService.java:80-82 | a topic is in `topTopics` exactly when some repository lists it; null topics add nothing |
| GitHubIngestion.SumsAppend | ingestion/src/main/java/com/arte/ingestion/service/GitHubIngestionService.java:74-75 | the star and fork totals of a concatenation are the sums of the parts' totals |
| GitHubIngestion.NullCountsAddNothing | ingestion/src/main/java/com/arte/ingestion/service/GitHubIngestionService.java:74-75 | a repository with null counts adds 0 to both totals |
| GitHubIngestion.UpsertReposFrame | ingestion/src/main/java/com/arte/ingestion/service/GitHubIngestionService.java:107-122 | an entry whose key no pinned repository has stays unchanged |
| GitHubIngestion.UpsertReposLast | ingestion/src/main/java/com/arte/ingestion/service/GitHubIngestionService.java:107-122 | the last repository's upsert stores its entry and keeps every entry under another key |
| GitHubIngestion.UpsertReposStores | ingestion/src/main/java/com/arte/ingestion/service/GitHubIngestionService.java:107-122 | a repository whose URL is not pinned again later ends up stored under `(user, "github", url)` with its content and metadata |
| GitHubIngestion.FoldStep | ingestion/src/main/java/com/arte/ingestion/service/GitHubIngestionService.java:72-123 | one loop iteration extends the totals, histogram, topic union, summaries and upserts of the prefix by one repository |
| GitHubIngestion.FoldPinnedRepos | ingestion/src/main/java/com/arte/ingestion/service/GitHubIngestionService.java:72-123 | the loop computes the star and fork sums, the language histogram, the topic union and the summaries, and upserts every repository in order; the other stores do not change |
| GitHubIngestion.IngestGitHubData | ingestion/src/main/java/com/arte/ingestion/service/GitHubIngestionService.java:44-153 | an unknown user throws "User not found: id"; a missing response, data or user returns the no-data result and writes nothing; otherwise it upserts every repository, stores the stats blob, and returns the repository count and the names in pinned order |
| LeetCodeIngestion.ProfileStatusOf | ingestion/src/main/java/com/arte/ingestion/service/LeetCodeIngestionService.java:55-58 | the guard classifies every response: "not found" exactly when the profile is null, lacks "data", or has a JSON-null matchedUser; a crash exactly when "data" is there but `get("matchedUser")` gives Java null; "found" otherwise |
| LeetCodeIngestion.DataLessProfileNotFound | ingestion/src/main/java/com/arte/ingestion/service/LeetCodeIngestionService.java:55-58 | a present response without "data" (`{}`, an errors-only reply, a JSON null) is "not found" |
| LeetCodeIngestion.ProfileStatusCases | ingestion/src/main/java/com/arte/ingestion/service/LeetCodeIngestionService.java:55-58 | a JSON-null matchedUser is "not found"; a "data" object without the key makes `get(...).isNull()` throw; any other matchedUser is "found" |
| LeetCodeIngestion.LastCountIsLast | ingestion/src/main/java/com/arte/ingestion/service/LeetCodeIngestionService.java:123-140 | a repeated difficulty label takes the count of its last entry |
| LeetCodeIngestion.LastCountAbsent | ingestion/src/main/java/com/arte/ingestion/service/LeetCodeIngestionService.java:123-140 | a difficulty no entry carries stays 0 |
| LeetCodeIngestion.CountDifficulties | ingestion/src/main/java/com/arte/ingestion/service/LeetCodeIngestionService.java:125-140 | the switch loop sets total, easy, medium and hard to the last count labelled "All", "Easy", "Medium" and "Hard"; other labels are ignored |
| LeetCodeIngestion.BadgeNamesOf | ingestion/src/main/java/com/arte/ingestion/service/LeetCodeIngestionService.java:143-150 | one badge name per badge, in array order |
| LeetCodeIngestion.CollectBadgeNames | ingestion/src/main/java/com/arte/ingestion/service/LeetCodeIngestionService.java:145-148 | the badge loop gives the badge names in array order |
| LeetCodeIngestion.LanguageMapLastWins | ingestion/src/main/java/com/arte/ingestion/service/LeetCodeIngestionService.java:169-181 | a language maps to the problem count of its last entry |
| LeetCodeIngestion.LanguageMapKeys | ingestion/src/main/java/com/arte/ingestion/service/LeetCodeIngestionService.java:169-181 | a language is a key exactly when some entry names it |
| LeetCodeIngestion.CollectLanguageCounts | ingestion/src/main/java/com/arte/ingestion/service/LeetCodeIngestionService.java:172-178 | the `put` loop builds the language map, later duplicates overwriting earlier ones |
| LeetCodeIngestion.SubmissionsOf | ingestion/src/main/java/com/arte/ingestion/service/LeetCodeIngestionService.java:184-198 | one submission record per list element, in order |
| LeetCodeIngestion.CollectSubmissions | ingestion/src/main/java/com/arte/ingestion/service/LeetCodeIngestionService.java:187-196 | the submission loop gives one record per element, in order |
| LeetCodeIngestion.ReadActiveBadge | ingestion/src/main/java/com/arte/ingestion/service/LeetCodeIngestionService.java:152-155 | the step of the build that reads the active badge gives the blob's `activeBadge` field; `LeetCodeIngestion.ActiveBadgeCases` states when it is set |
| LeetCodeIngestion.ReadContestRanking | ingestion/src/main/java/com/arte/ingestion/service/LeetCodeIngestionService.java:158-160 | the contest ranking is used only for a response with "data" whose userContestRanking is not JSON null |
| LeetCodeIngestion.ReadSolved | ingestion/src/main/java/com/arte/ingestion/service/LeetCodeIngestionService.java:123-140 | the difficulty counts are set only when acSubmissionNum is an array |
| LeetCodeIngestion.ReadBadges | ingestion/src/main/java/com/arte/ingestion/service/LeetCodeIngestionService.java:143-150 | the badge list is set only when badges is an array |
| LeetCodeIngestion.ReadLanguageStats | ingestion/src/main/java/com/arte/ingestion/service/LeetCodeIngestionService.java:169-181 | language stats are set only for a response with "data" whose languageProblemCount is an array |
| LeetCodeIngestion.ReadSubmissions | ingestion/src/main/java/com/arte/ingestion/service/LeetCodeIngestionService.java:184-198 | recent submissions are set only for a response with "data" whose recentAcSubmissionList is an array |
| LeetCodeIngestion.BuildLeetCodeStats | ingestion/src/main/java/com/arte/ingestion/service/LeetCodeIngestionService.java:109-201 | the stats built part by part equal the blob described by the JSON responses |
| LeetCodeIngestion.StatsOf | ingestion/src/main/java/com/arte/ingestion/service/LeetCodeIngestionService.java:109-201 | `buildLeetCodeStats`: this definition is the model; `LeetCodeIngestion.BuildLeetCodeStats` computes it, and `LeetCodeIngestion.OptionalSectionsUnset`, `LeetCodeIngestion.MissingContestRankingCountsAsZero` and `LeetCodeIngestion.ProblemsSolvedReported` state its properties |
| LeetCodeIngestion.OptionalSectionsUnset | ingestion/src/main/java/com/arte/ingestion/service/LeetCodeIngestionService.java:157-198 | null responses, or responses without "data", leave contest, language and submission fields unset |
| LeetCodeIngestion.MissingContestRankingCountsAsZero | ingestion/src/main/java/com/arte/ingestion/service/LeetCodeIngestionService.java:158-166 | a contest "data" without userContestRanking reads as a MissingNode: the fields are set, to 0 |
| LeetCodeIngestion.NullContestRankingIsUnset | ingestion/src/main/java/com/arte/ingestion/service/LeetCodeIngestionService.java:158-166 | a JSON-null userContestRanking leaves the contest fields unset |
| LeetCodeIngestion.ActiveBadgeCases | ingestion/src/main/java/com/arte/ingestion/service/LeetCodeIngestionService.java:152-155 | the active badge is set exactly when activeBadge is an object with a "name" field, and then holds that field's text; a JSON null or a MissingNode leaves it unset |
| LeetCodeIngestion.ActiveBadgeExamples | ingestion/src/main/java/com/arte/ingestion/service/LeetCodeIngestionService.java:152-155 | a badge named "Knight" is reported, while a null badge, a badge without a name and a user without the field report none |
| LeetCodeIngestion.MaxKeyExists | ingestion/src/main/java/com/arte/ingestion/service/LeetCodeIngestionService.java:221-228 | some language in a non-empty set has the largest count |
| LeetCodeIngestion.NamesOfSnoc | ingestion/src/main/java/com/arte/ingestion/service/LeetCodeIngestionService.java:221-228 | appending a language adds its name to the selected names |
| LeetCodeIngestion.SelectionStep | ingestion/src/main/java/com/arte/ingestion/service/LeetCodeIngestionService.java:221-228 | taking a largest remaining language keeps the selection sorted by count, descending, with distinct names from the map, each at least as large as anything left |
| LeetCodeIngestion.SelectionDone | ingestion/src/main/java/com/arte/ingestion/service/LeetCodeIngestionService.java:221-228 | a selection that holds five languages, or has run out of them, is the sorted-and-limited top of the map |
| LeetCodeIngestion.TopLanguages | ingestion/src/main/java/com/arte/ingestion/service/LeetCodeIngestionService.java:221-228 | the sorted-and-limited stream: exactly `min(5, number of languages)` distinct languages of the map with their counts, in non-increasing order, and no unselected language beats a selected one |
| LeetCodeIngestion.BuildLeetCodeContent | ingestion/src/main/java/com/arte/ingestion/service/LeetCodeIngestionService.java:203-244 | the content text is built from sections in order, using the top languages chosen by the sort |
| LeetCodeIngestion.Content | ingestion/src/main/java/com/arte/ingestion/service/LeetCodeIngestionService.java:203-244 | `buildLeetCodeContent`: this definition is the model; `LeetCodeIngestion.BuildLeetCodeContent` computes it, and `LeetCodeIngestion.OnlyTenSubmissionsShown`, `LeetCodeIngestion.LanguageLinesCount` and `LeetCodeIngestion.ContestShownOnlyWithPositiveRating` state its properties |
| LeetCodeIngestion.OnlyTenSubmissionsShown | ingestion/src/main/java/com/arte/ingestion/service/LeetCodeIngestionService.java:235-241 | submissions after the tenth do not change the content |
| LeetCodeIngestion.LanguageLinesCount | ingestion/src/main/java/com/arte/ingestion/service/LeetCodeIngestionService.java:221-228 | the language lines are empty exactly when no language was selected |
| LeetCodeIngestion.ContestShownOnlyWithPositiveRating | ingestion/src/main/java/com/arte/ingestion/service/LeetCodeIngestionService.java:213-219 | without a positive rating, changing the contest fields does not change the content |
| LeetCodeIngestion.ProblemsSolvedReported | ingestion/src/main/java/com/arte/ingestion/service/LeetCodeIngestionService.java:102-106 | problemsSolved is the "All" count, or 0 when acSubmissionNum is not an array |
| LeetCodeIngestion.IngestLeetCodeData | ingestion/src/main/java/com/arte/ingestion/service/LeetCodeIngestionService.java:43-107 | an unknown user throws; "not found" returns the failure result and writes nothing; a "data" object without matchedUser throws; otherwise it stores the blob, upserts one entry under the profile URL, and reports the solved count |
| ResumeText.PdfSuffixAnyCase | ingestion/src/main/java/com/arte/ingestion/service/ResumeProcessingService.java:135-140 | ".PDF" and ".pdf" names pass; no type and no name fails; a text type with a ".txt" name fails |
| ResumeText.IsPdfFile | ingestion/src/main/java/com/arte/ingestion/service/ResumeProcessingService.java:135-140 | `isPdfFile`: this definition is the model; `ResumeText.PdfSuffixAnyCase` states its property |
| ResumeText.CollapseSpaceRuns | ingestion/src/main/java/com/arte/ingestion/service/ResumeProcessingService.java:155 | after collapsing, every character is a single space or a non-space character of the input |
| ResumeText.KeepMeaningful | ingestion/src/main/java/com/arte/ingestion/service/ResumeProcessingService.java:157 | only letters, digits, punctuation and spaces of the input remain |
| ResumeText.LeadingNewlines | ingestion/src/main/java/com/arte/ingestion/service/ResumeProcessingService.java:161 | the count is exactly the length of the leading run of newlines |
| ResumeText.NormalizeWithoutCarriageReturn | ingestion/src/main/java/com/arte/ingestion/service/ResumeProcessingService.java:159 | the line-ending rule does nothing on text without a carriage return |
| ResumeText.CollapseWithoutNewline | ingestion/src/main/java/com/arte/ingestion/service/ResumeProcessingService.java:161 | the blank-line rule does nothing on text without a newline |
| ResumeText.CleanTextLineRulesAreNoOps | ingestion/src/main/java/com/arte/ingestion/service/ResumeProcessingService.java:153-163 | `cleanText` equals trimming after the first two replacements: the newline rules never fire |
| ResumeText.CleanTextShape | ingestion/src/main/java/com/arte/ingestion/service/ResumeProcessingService.java:153-163 | cleaned text is trimmed, has no `\s` character other than ' ' (so no newline, carriage return or tab), and keeps only letters, digits and punctuation of the input besides spaces |
| ResumeText.CleanText | ingestion/src/main/java/com/arte/ingestion/service/ResumeProcessingService.java:153-163 | `cleanText`: this definition is the model; `ResumeText.CleanTextShape`, `ResumeText.CleanTextLineRulesAreNoOps` and `ResumeProcessing.CleanedAway` state its properties |
| ResumeText.CapThenCount | ingestion/src/main/java/com/arte/ingestion/service/ResumeProcessingService.java:165-178 | on cleaned text, `countWords(capWords(t, n)) == min(n, countWords(t))`, and the capped words are the first `n` words |
| ResumeText.CapWords | ingestion/src/main/java/com/arte/ingestion/service/ResumeProcessingService.java:165-171 | `capWords`: this definition is the model; `ResumeText.CapThenCount` and `ResumeProcessing.EmptyTextCapped` state its properties |
| ResumeText.CountWords | ingestion/src/main/java/com/arte/ingestion/service/ResumeProcessingService.java:173-178 | `countWords`: this definition is the model; `ResumeText.CapThenCount`, `ResumeProcessing.WordCountWithinCap` and `ResumeProcessing.SymbolsOnlyTextCountsZero` state its properties |
| ResumeText.ReportedWordCount | ingestion/src/main/java/com/arte/ingestion/service/ResumeProcessingService.java:72-74 | the reported count is the smaller of the cap and the cleaned text's word count |
| ResumeText.ByteHex | ingestion/src/main/java/com/arte/ingestion/service/ResumeProcessingService.java:185-188 | each byte gives two hex digits, zero-padded: the high and then the low nibble |
| ResumeText.HexOf | ingestion/src/main/java/com/arte/ingestion/service/ResumeProcessingService.java:184-189 | the hex text has two characters per byte |
| ResumeText.DecodeHex | ingestion/src/main/java/com/arte/ingestion/service/ResumeProcessingService.java:184-189 | reading hex back gives one byte per two characters |
| ResumeText.HexDigitValue | ingestion/src/main/java/com/arte/ingestion/service/ResumeProcessingService.java:186 | each nibble is written as a lower-case hex digit that reads back to it |
| ResumeText.HexOfAt | ingestion/src/main/java/com/arte/ingestion/service/ResumeProcessingService.java:185-188 | byte `i` sits at characters `2i` and `2i+1` |
| ResumeText.ByteDigitsRoundTrip | ingestion/src/main/java/com/arte/ingestion/service/ResumeProcessingService.java:185-188 | a byte's two hex digits read back to the byte |
| ResumeText.HexRoundTrip | ingestion/src/main/java/com/arte/ingestion/service/ResumeProcessingService.java:184-189 | the hex text determines the digest: decoding it gives the bytes back |
| ResumeText.HexOfPrefix | ingestion/src/main/java/com/arte/ingestion/service/ResumeProcessingService.java:190 | the first `2k` hex characters are the hex of the first `k` bytes |
| ResumeText.FingerprintOfSha256 | ingestion/src/main/java/com/arte/ingestion/service/ResumeProcessingService.java:180-190 | a 32-byte digest gives 16 lower-case hex characters: the hex of its first eight bytes |
| ResumeText.FingerprintOf | ingestion/src/main/java/com/arte/ingestion/service/ResumeProcessingService.java:190 | `substring(0, 16)` of the hex text: this definition is the model; `ResumeText.FingerprintOfSha256` and `ResumeText.ComputeHash` state its properties |
| ResumeText.HexDigitsOnly | ingestion/src/main/java/com/arte/ingestion/service/ResumeProcessingService.java:184-189 | every character of the hex text is 0-9 or a-f |
| ResumeText.ComputeHash | ingestion/src/main/java/com/arte/ingestion/service/ResumeProcessingService.java:180-190 | the hex loop and `substring(0, 16)` give the fingerprint, or the exception `substring` throws on a digest shorter than eight bytes |
| ResumeSections.Distinct | ingestion/src/main/java/com/arte/ingestion/service/ResumeProcessingService.java:223-225 | `distinct()` gives no duplicates, the same elements, and a list no longer than the input |
| ResumeSections.DistinctOfPrefix | ingestion/src/main/java/com/arte/ingestion/service/ResumeProcessingService.java:223-225 | de-duplicating a prefix gives a prefix of the de-duplicated whole, so the lazy stream can stop early |
| ResumeSections.DistinctLimit | ingestion/src/main/java/com/arte/ingestion/service/ResumeProcessingService.java:223-225 | `distinct().limit(n)` gives the first `n` distinct elements |
| ResumeSections.DelimitedPieces | ingestion/src/main/java/com/arte/ingestion/service/ResumeProcessingService.java:210-213 | splitting at `[,;\|•·]` gives at least one piece, and no piece holds a delimiter |
| ResumeSections.TrimKeepsNoDelimiter | ingestion/src/main/java/com/arte/ingestion/service/ResumeProcessingService.java:214 | trimming a delimiter-free piece keeps it delimiter-free |
| ResumeSections.KeptSkillsAreSkills | ingestion/src/main/java/com/arte/ingestion/service/ResumeProcessingService.java:213-218 | every kept piece is trimmed, non-empty, shorter than 50 characters, and delimiter-free |
| ResumeSections.CandidatesAreSkills | ingestion/src/main/java/com/arte/ingestion/service/ResumeProcessingService.java:209-221 | every skill candidate of every matched line is a kept skill |
| ResumeSections.SkillsShape | ingestion/src/main/java/com/arte/ingestion/service/ResumeProcessingService.java:197-226 | at most 30 skills, duplicate-free, each trimmed, non-empty, shorter than 50 and a candidate; with at most 30 distinct candidates none is dropped |
| ResumeSections.SkillsOf | ingestion/src/main/java/com/arte/ingestion/service/ResumeProcessingService.java:197-226 | `extractSkills`: this definition is the model; `ResumeSections.ExtractSkills` computes it and `ResumeSections.SkillsShape` states its properties |
| ResumeSections.KeptSkillsStep | ingestion/src/main/java/com/arte/ingestion/service/ResumeProcessingService.java:213-218 | one more piece appends exactly that piece's trimmed form when it qualifies |
| ResumeSections.KeepSkills | ingestion/src/main/java/com/arte/ingestion/service/ResumeProcessingService.java:213-218 | the inner loop keeps exactly the qualifying trimmed pieces, in order |
| ResumeSections.CandidatesStep | ingestion/src/main/java/com/arte/ingestion/service/ResumeProcessingService.java:209-221 | one more matched line appends that line's kept pieces |
| ResumeSections.CollectSkillCandidates | ingestion/src/main/java/com/arte/ingestion/service/ResumeProcessingService.java:209-221 | the outer loop collects every candidate in the order found |
| ResumeSections.ExtractSkills | ingestion/src/main/java/com/arte/ingestion/service/ResumeProcessingService.java:197-226 | `extractSkills` gives the candidates, de-duplicated and limited to 30 |
| ResumeSections.Truncate | ingestion/src/main/java/com/arte/ingestion/service/ResumeProcessingService.java:241-245 | a text no longer than the cut is kept; a longer one becomes exactly `cut + 3` characters long |
| ResumeSections.TruncatedShape | ingestion/src/main/java/com/arte/ingestion/service/ResumeProcessingService.java:241-245 | a truncated text is the first `cut` characters of the original followed by "..." |
| ResumeSections.EntryOf | ingestion/src/main/java/com/arte/ingestion/service/ResumeProcessingService.java:238-247 | one piece gives at most one entry |
| ResumeSections.KeptEntries | ingestion/src/main/java/com/arte/ingestion/service/ResumeProcessingService.java:238-247 | there are no more entries than pieces |
| ResumeSections.EntriesComeFromPieces | ingestion/src/main/java/com/arte/ingestion/service/ResumeProcessingService.java:238-247 | every entry is the trimmed form of some piece, longer than the minimum, truncated at the cut |
| ResumeSections.KeptEntriesStep | ingestion/src/main/java/com/arte/ingestion/service/ResumeProcessingService.java:238-247 | one more piece appends exactly what that piece contributes |
| ResumeSections.EntryBounds | ingestion/src/main/java/com/arte/ingestion/service/ResumeProcessingService.java:238-247 | each entry is longer than the minimum and at most `cut + 3` characters; an untruncated one is trimmed, and a truncated one ends in "..." |
| ResumeSections.EntriesOf | ingestion/src/main/java/com/arte/ingestion/service/ResumeProcessingService.java:229-251 | at most `limit` entries, and none when the section was not found |
| ResumeSections.CollectEntries | ingestion/src/main/java/com/arte/ingestion/service/ResumeProcessingService.java:229-251 | the loop shared by experiences and education gives the section's entries |
| ResumeSections.SectionEntryBounds | ingestion/src/main/java/com/arte/ingestion/service/ResumeProcessingService.java:229-277 | at most 10 experiences of 21 to 503 characters, and at most 5 education entries of 11 to 303 characters |
| ResumeSections.ParagraphPieces | ingestion/src/main/java/com/arte/ingestion/service/ResumeProcessingService.java:292 | splitting at "\n\n" gives at least one piece |
| ResumeSections.FirstFallbackIndex | ingestion/src/main/java/com/arte/ingestion/service/ResumeProcessingService.java:292-297 | the first paragraph whose length is strictly between 100 and 500, and none exactly when no paragraph qualifies |
| ResumeSections.FirstParagraphOf | ingestion/src/main/java/com/arte/ingestion/service/ResumeProcessingService.java:292-299 | the fallback summary is "" when no paragraph has a suitable length |
| ResumeSections.FirstParagraphIsFirst | ingestion/src/main/java/com/arte/ingestion/service/ResumeProcessingService.java:292-297 | the fallback summary is the first suitable paragraph, trimmed, whatever follows it |
| ResumeSections.FirstParagraph | ingestion/src/main/java/com/arte/ingestion/service/ResumeProcessingService.java:292-297 | the fallback loop returns the first suitable paragraph, trimmed, or "" |
| ResumeSections.ExtractSummary | ingestion/src/main/java/com/arte/ingestion/service/ResumeProcessingService.java:280-300 | `extractSummary` gives the trimmed labelled summary when the pattern matched, else the fallback paragraph |
| ResumeSections.SummaryOf | ingestion/src/main/java/com/arte/ingestion/service/ResumeProcessingService.java:280-300 | `extractSummary`: this definition is the model; `ResumeSections.ExtractSummary` computes it and `ResumeSections.SummaryOfSingleLine` states its property |
| ResumeSections.PiecesWithoutNewline | ingestion/src/main/java/com/arte/ingestion/service/ResumeProcessingService.java:292 | a text without newlines is one paragraph |
| ResumeSections.SummaryOfSingleLine | ingestion/src/main/java/com/arte/ingestion/service/ResumeProcessingService.java:280-300 | single-line text without a labelled summary gives itself, trimmed, when its length is strictly between 100 and 500, and "" otherwise |
| ResumeProcessing.SummaryOf | ingestion/src/main/java/com/arte/ingestion/service/ResumeProcessingService.java:82-92 | the résumé blob holds the capped text and its word count, the extracted skills, and at most 10 experiences and 5 education entries |
| ResumeProcessing.ProcessResume | ingestion/src/main/java/com/arte/ingestion/service/ResumeProcessingService.java:54-133 | an unknown user throws; a non-PDF or blank text returns its failure result and writes nothing; a null file name throws; otherwise it stores the blob and upserts one entry under "resume://user/fingerprint" |
| ResumeProcessing.WordCountWithinCap | ingestion/src/main/java/com/arte/ingestion/service/ResumeProcessingService.java:72-74 | the word count is `min(cap, words of the cleaned text)`, so never more than the cap |
| ResumeProcessing.CleanedAway | ingestion/src/main/java/com/arte/ingestion/service/ResumeProcessingService.java:153-163 | text without letters, digits or punctuation cleans to "" |
| ResumeProcessing.SymbolsOnlyTextCountsZero | ingestion/src/main/java/com/arte/ingestion/service/ResumeProcessingService.java:66-74 | the blank check runs before cleaning: symbols-only text passes it and then counts 0 words |
| ResumeProcessing.EmptyTextCapped | ingestion/src/main/java/com/arte/ingestion/service/ResumeProcessingService.java:165-178 | capping "" gives "" with 0 words |
| ResumeProcessing.ResumeKeyIdentifiesFile | ingestion/src/main/java/com/arte/ingestion/service/ResumeProcessingService.java:105 | for one user, two fingerprints give the same source URL exactly when they are equal |
| LinkedInIngestion.JobContent | ingestion/src/main/java/com/arte/ingestion/service/LinkedInJobIngestionService.java:62-85 | an invalid id gives null without fetching, and only the fetch throws (an IOException) |
| LinkedInIngestion.IsValidJobId | ingestion/src/main/java/com/arte/ingestion/service/LinkedInJobIngestionService.java:63 | the id check: this definition is the model; `LinkedInIngestion.InvalidIdFails` and `LinkedInIngestion.NonAsciiDigitsPass` state its properties |
| LinkedInIngestion.Ingest | ingestion/src/main/java/com/arte/ingestion/service/LinkedInJobIngestionService.java:36-60 | `ingestLinkedInJob` on the job cache: this definition is the model; `LinkedInIngestion.IngestLinkedInJob` computes it, and `LinkedInIngestion.CachedJobAnsweredFromCache`, `LinkedInIngestion.IngestSavesAtMostTheJob` and `LinkedInIngestion.RepeatIsIdempotent` state its properties |
| LinkedInIngestion.CachedJobAnsweredFromCache | ingestion/src/main/java/com/arte/ingestion/service/LinkedInJobIngestionService.java:39-44 | a stored job id returns (true, stored content) and leaves the cache unchanged |
| LinkedInIngestion.InvalidIdFails | ingestion/src/main/java/com/arte/ingestion/service/LinkedInJobIngestionService.java:46-51 | an unstored id that is not ten digits returns the not-found message and saves nothing |
| LinkedInIngestion.IngestSavesAtMostTheJob | ingestion/src/main/java/com/arte/ingestion/service/LinkedInJobIngestionService.java:46-59 | the cache changes only on a fresh success, which saves exactly (jobId, content) and returns the content; failures and exceptions save nothing |
| LinkedInIngestion.RepeatIsIdempotent | ingestion/src/main/java/com/arte/ingestion/service/LinkedInJobIngestionService.java:39-59 | repeating a successful call returns the same result and saves nothing new |
| LinkedInIngestion.NonAsciiDigitsPass | ingestion/src/main/java/com/arte/ingestion/service/LinkedInJobIngestionService.java:63 | ten copies of any character `Character.isDigit` accepts pass the id check, ASCII or not |
| LinkedInIngestion.IngestLinkedInJob | ingestion/src/main/java/com/arte/ingestion/service/LinkedInJobIngestionService.java:36-60 | the method's result and job store equal the cache-or-fetch specification; the other stores do not change |
| IngestionGrpc.Reply | ingestion/src/main/java/com/arte/ingestion/grpc/IngestionGrpcServiceImpl.java:48-49 | exactly one `onNext` with the response, then `onCompleted` |
| IngestionGrpc.RunFor | ingestion/src/main/java/com/arte/ingestion/grpc/IngestionGrpcServiceImpl.java:38-39 | `UUID.fromString` throws before the service runs: this definition is the model; `IngestionGrpc.SingleSourceResponses` states its effect |
| IngestionGrpc.IngestGitHub | ingestion/src/main/java/com/arte/ingestion/grpc/IngestionGrpcServiceImpl.java:34-60 | `ingestGitHub`: this definition is the model; `IngestionGrpc.SingleSourceResponses` states its properties |
| IngestionGrpc.IngestLeetCode | ingestion/src/main/java/com/arte/ingestion/grpc/IngestionGrpcServiceImpl.java:63-89 | `ingestLeetCode`: this definition is the model; `IngestionGrpc.OtherSourceResponses` states its properties |
| IngestionGrpc.IngestResume | ingestion/src/main/java/com/arte/ingestion/grpc/IngestionGrpcServiceImpl.java:92-126 | `ingestResume`: this definition is the model; `IngestionGrpc.OtherSourceResponses` and `IngestionGrpc.GrpcUploadsPassPdfCheck` state its properties |
| IngestionGrpc.HealthCheck | ingestion/src/main/java/com/arte/ingestion/grpc/IngestionGrpcServiceImpl.java:223-235 | `healthCheck`: this definition is the model; `IngestionGrpc.AlwaysHealthy` states its property |
| IngestionGrpc.IngestLinkedInJob | ingestion/src/main/java/com/arte/ingestion/grpc/IngestionGrpcServiceImpl.java:238-265 | `ingestLinkedInJob`: this definition is the model; `IngestionGrpc.OtherSourceResponses` states its properties |
| IngestionGrpc.SingleSourceResponses | ingestion/src/main/java/com/arte/ingestion/grpc/IngestionGrpcServiceImpl.java:33-60 | a returned result is copied unchanged; any exception, a malformed id included, gives success=false and "Error: " + its message; always one response, then completion |
| IngestionGrpc.OtherSourceResponses | ingestion/src/main/java/com/arte/ingestion/grpc/IngestionGrpcServiceImpl.java:62-126 | the LeetCode, résumé and LinkedIn endpoints copy success, message and count, or map the exception the same way |
| IngestionGrpc.AlwaysHealthy | ingestion/src/main/java/com/arte/ingestion/grpc/IngestionGrpcServiceImpl.java:223-235 | healthCheck answers healthy with "Ingestion service is healthy" |
| IngestionGrpc.Attempted | ingestion/src/main/java/com/arte/ingestion/grpc/IngestionGrpcServiceImpl.java:141-199 | with a parsed id, GitHub always runs first |
| IngestionGrpc.AllResponseOf | ingestion/src/main/java/com/arte/ingestion/grpc/IngestionGrpcServiceImpl.java:128-221 | the `ingestAll` response: this definition is the model; `IngestionGrpc.IngestAll` computes it, and `IngestionGrpc.AllSuccessOnlyTracksGitHubExceptions` and `IngestionGrpc.OverallSuccessIsNotAnAnd` state its properties |
| IngestionGrpc.IngestAll | ingestion/src/main/java/com/arte/ingestion/grpc/IngestionGrpcServiceImpl.java:128-221 | the step-by-step composite replies once with the specified response and calls GitHub, then LeetCode for a non-empty username, then the résumé for non-empty content and file name |
| IngestionGrpc.AllSuccessOnlyTracksGitHubExceptions | ingestion/src/main/java/com/arte/ingestion/grpc/IngestionGrpcServiceImpl.java:135-207 | overall success holds exactly when the id parsed and GitHub did not throw; the message follows the flag; a sub-result exists exactly for each attempted source |
| IngestionGrpc.OverallSuccessIsNotAnAnd | ingestion/src/main/java/com/arte/ingestion/grpc/IngestionGrpcServiceImpl.java:149-174 | a GitHub failure result and a LeetCode exception still give "Full ingestion completed" |
| IngestionGrpc.GrpcUploadsPassPdfCheck | ingestion/src/main/java/com/arte/ingestion/grpc/IngestionGrpcServiceImpl.java:99-104 | uploads built from gRPC bytes always pass the PDF type check |
| IngestionHttp.EndpointStatuses | ingestion/src/main/java/com/arte/ingestion/controller/IngestionController.java:31-162 | 200 exactly on success, and only success carries data; 400 exactly for a failure result or an IllegalArgumentException; a résumé IOException is 500 "Failed to process PDF: "; any other exception is 500 "Internal error: " |
| IngestionHttp.FailureOf | ingestion/src/main/java/com/arte/ingestion/controller/IngestionController.java:54-67 | the catch blocks: this definition is the model; `IngestionHttp.EndpointStatuses` states the statuses it gives |
| IngestionHttp.GitHubEndpoint | ingestion/src/main/java/com/arte/ingestion/controller/IngestionController.java:31-68 | `ingestGitHub`: this definition is the model; `IngestionHttp.EndpointStatuses` states its statuses |
| IngestionHttp.LeetCodeEndpoint | ingestion/src/main/java/com/arte/ingestion/controller/IngestionController.java:74-110 | `ingestLeetCode`: this definition is the model; `IngestionHttp.EndpointStatuses` states its statuses |
| IngestionHttp.ResumeEndpoint | ingestion/src/main/java/com/arte/ingestion/controller/IngestionController.java:116-162 | `processResume`: this definition is the model; `IngestionHttp.EndpointStatuses` states its statuses |
| IngestionHttp.FullIngestion | ingestion/src/main/java/com/arte/ingestion/controller/IngestionController.java:167-208 | the StringBuilder loop builds the specified response, and calls GitHub and then, only for a non-blank username, LeetCode |
| IngestionHttp.FullIngestionResponse | ingestion/src/main/java/com/arte/ingestion/controller/IngestionController.java:167-208 | the `fullIngestion` response: this definition is the model; `IngestionHttp.FullIngestion` computes it, and `IngestionHttp.FullIngestionIsAnAnd` and `IngestionHttp.BoundariesDisagreeOnGitHubFailure` state its properties |
| IngestionHttp.FullIngestionIsAnAnd | ingestion/src/main/java/com/arte/ingestion/controller/IngestionController.java:167-208 | always 200 without data; success is the AND of the attempted results, an exception counting as failure; the message starts with the GitHub part and ends with " \| " plus the LeetCode part exactly when LeetCode ran |
| IngestionHttp.BoundariesDisagreeOnGitHubFailure | ingestion/src/main/java/com/arte/ingestion/controller/IngestionController.java:177-186 | a GitHub no-data result fails `fullIngestion` but passes gRPC `ingestAll` |
| Cookies.CookieIndex | api-core/src/main/java/com/arte/apicore/service/auth/filter/JwtAuthenticationFilter.java:60-67 | no index exactly when no cookie has the name; otherwise the first cookie with it |
| Cookies.FindCookie | api-core/src/main/java/com/arte/apicore/service/auth/filter/JwtAuthenticationFilter.java:60-67 | the loop with early return gives the first matching cookie's value, or null when there are no cookies or no match |
| Cookies.CookieValue | api-core/src/main/java/com/arte/apicore/service/auth/filter/JwtAuthenticationFilter.java:60-67 | the first cookie with the name: this definition is the model; `Cookies.FindCookie` computes it and `Cookies.FirstCookieWins` states its property |
| Cookies.FirstCookieWins | api-core/src/main/java/com/arte/apicore/controller/AuthController.java:42-51 | later cookies with the same name are ignored |
| JwtFilter.ExtractToken | api-core/src/main/java/com/arte/apicore/service/auth/filter/JwtAuthenticationFilter.java:54-70 | `extractToken` gives the specified header-or-cookie token |
| JwtFilter.IsBearer | api-core/src/main/java/com/arte/apicore/service/auth/filter/JwtAuthenticationFilter.java:56 | the case-insensitive "bearer " test: this definition is the model; `JwtFilter.BearerHeaderWins` and `JwtFilter.OtherSchemeIgnored` state its effect |
| JwtFilter.RequestToken | api-core/src/main/java/com/arte/apicore/service/auth/filter/JwtAuthenticationFilter.java:54-70 | `extractToken`: this definition is the model; `JwtFilter.ExtractToken` computes it, and `JwtFilter.BearerHeaderWins`, `JwtFilter.CookieFallback` and `JwtFilter.OtherSchemeIgnored` state its properties |
| JwtFilter.AuthenticationAfter | api-core/src/main/java/com/arte/apicore/service/auth/filter/JwtAuthenticationFilter.java:34-48 | the authentication the filter leaves: this definition is the model; `JwtFilter.DoFilter` computes it, and `JwtFilter.AuthenticationComesFromValidToken` and `JwtFilter.RefreshTokenAuthenticates` state its properties |
| JwtFilter.RequestContext.constructor | api-core/src/main/java/com/arte/apicore/service/auth/filter/JwtAuthenticationFilter.java:29-52 | a request starts unauthenticated, with the chain not yet called |
| JwtFilter.DoFilter | api-core/src/main/java/com/arte/apicore/service/auth/filter/JwtAuthenticationFilter.java:29-52 | the authentication becomes the validated token's principal, or stays as it was; the chain is called exactly once |
| JwtFilter.BearerHeaderWins | api-core/src/main/java/com/arte/apicore/service/auth/filter/JwtAuthenticationFilter.java:55-57 | a "bearer " header in any letter case gives the rest of the header, whatever the cookies |
| JwtFilter.CookieFallback | api-core/src/main/java/com/arte/apicore/service/auth/filter/JwtAuthenticationFilter.java:60-69 | without a bearer header, the token is the first "accessToken" cookie; with no such cookie there is none |
| JwtFilter.OtherSchemeIgnored | api-core/src/main/java/com/arte/apicore/service/auth/filter/JwtAuthenticationFilter.java:55-60 | a "Basic" header is ignored in favour of the cookie |
| JwtFilter.AuthenticationComesFromValidToken | api-core/src/main/java/com/arte/apicore/service/auth/filter/JwtAuthenticationFilter.java:34-48 | authentication changes only to a validated token's principal; no token, or a failed validation, leaves it unchanged |
| JwtFilter.RefreshTokenAuthenticates | api-core/src/main/java/com/arte/apicore/service/auth/filter/JwtAuthenticationFilter.java:35-44 | a validated refresh token also authenticates a request |
| AuthRefresh.MillisToSecondsTruncates | api-core/src/main/java/com/arte/apicore/controller/AuthController.java:72-76 | `ms / 1000` truncates toward zero: the remainder is under a second and has the sign of `ms` |
| AuthRefresh.MillisToSeconds | api-core/src/main/java/com/arte/apicore/controller/AuthController.java:75 | `long / 1000`: this definition is the model; `AuthRefresh.MillisToSecondsTruncates` and `AuthRefresh.DefaultLifetimesAgree` state its properties |
| AuthRefresh.CreateCookie | api-core/src/main/java/com/arte/apicore/controller/AuthController.java:94-102 | `createCookie`: this definition is the model; `AuthRefresh.RefreshOutcomes` states the cookies it gives |
| AuthRefresh.PresentedToken | api-core/src/main/java/com/arte/apicore/controller/AuthController.java:38-51 | the token the endpoint checks: this definition is the model; `AuthRefresh.BodyKeyWins` and `AuthRefresh.CookieUsedWithoutBodyKey` state its properties |
| AuthRefresh.RefreshOf | api-core/src/main/java/com/arte/apicore/controller/AuthController.java:33-77 | `refresh`: this definition is the model; `AuthRefresh.Refresh` computes it and `AuthRefresh.RefreshOutcomes` states its properties |
| AuthRefresh.DefaultLifetimesAgree | api-core/src/main/java/com/arte/apicore/service/auth/strategy/JwtTokenProvider.java:23-24 | the default token lifetimes equal the cookie max-ages: 14400 s and 604800 s |
| AuthRefresh.ServletResponse.constructor | api-core/src/main/java/com/arte/apicore/controller/AuthController.java:33-77 | a response starts without cookies |
| AuthRefresh.ServletResponse.AddCookie | api-core/src/main/java/com/arte/apicore/controller/AuthController.java:69-70 | `addCookie` appends one cookie |
| AuthRefresh.Refresh | api-core/src/main/java/com/arte/apicore/controller/AuthController.java:33-77 | the refresh endpoint with its cookie loop gives the specified outcome and adds exactly the specified cookies |
| AuthRefresh.BodyKeyWins | api-core/src/main/java/com/arte/apicore/controller/AuthController.java:38-41 | a body with the "refreshToken" key decides the token (a null value included); cookies are ignored |
| AuthRefresh.CookieUsedWithoutBodyKey | api-core/src/main/java/com/arte/apicore/controller/AuthController.java:42-51 | without that key, the first "refreshToken" cookie is the token |
| AuthRefresh.RefreshOutcomes | api-core/src/main/java/com/arte/apicore/controller/AuthController.java:54-102 | it throws "Invalid or expired refresh token" and sets no cookie exactly when the token is missing or invalid; otherwise it returns both new tokens with expiresIn = ms / 1000 and sets them as cookies with max-ages 14400 and 604800, HttpOnly, not Secure, path "/", domain "localhost" |
| OAuthUsers.FirstPrimary | api-core/src/main/java/com/arte/apicore/service/auth/CustomOAuth2UserService.java:79-82 | the first non-null entry flagged primary, or none when there is no such entry |
| OAuthUsers.PrimaryEmail | api-core/src/main/java/com/arte/apicore/service/auth/CustomOAuth2UserService.java:60-90 | `getPrimaryEmail`: this definition is the model; `OAuthUsers.PrimaryEntryChosen`, `OAuthUsers.FirstEntryWithoutPrimary` and `OAuthUsers.NoEmailMeansNoReply` state its properties |
| OAuthUsers.EmailFor | api-core/src/main/java/com/arte/apicore/service/auth/CustomOAuth2UserService.java:41-43 | the email is never empty, and a non-empty found email is kept |
| OAuthUsers.PrimaryEntryChosen | api-core/src/main/java/com/arte/apicore/service/auth/CustomOAuth2UserService.java:79-82 | the first primary entry's email is chosen, whatever follows it |
| OAuthUsers.FirstEntryWithoutPrimary | api-core/src/main/java/com/arte/apicore/service/auth/CustomOAuth2UserService.java:83 | without a primary entry the first entry's email is used, or null if that entry is null |
| OAuthUsers.NoEmailMeansNoReply | api-core/src/main/java/com/arte/apicore/service/auth/CustomOAuth2UserService.java:73-88 | a failed request, a null body or an empty list ends in login + "@users.noreply.github.com" |
| OAuthUsers.LoginIndex | api-core/src/main/java/com/arte/apicore/service/auth/CustomOAuth2UserService.java:46 | `findByGithubUsername` finds the first row with the login, and none exactly when no row has it |
| OAuthUsers.UpsertAccountShape | api-core/src/main/java/com/arte/apicore/service/auth/CustomOAuth2UserService.java:46-55 | the upsert keeps logins unique and leaves one row with the login, holding the new email and token; it keeps the other rows and adds a row only for a new login |
| OAuthUsers.UpsertAccount | api-core/src/main/java/com/arte/apicore/service/auth/CustomOAuth2UserService.java:46-55 | the rows after the upsert: this definition is the model; `OAuthUsers.LoadUser` computes it, and `OAuthUsers.UpsertAccountShape` and `OAuthUsers.UpsertAccountIdempotent` state its properties |
| OAuthUsers.UpsertAccountIdempotent | api-core/src/main/java/com/arte/apicore/service/auth/CustomOAuth2UserService.java:46-55 | logging in twice with the same data changes nothing the second time |
| OAuthUsers.UserRepository.constructor | api-core/src/main/java/com/arte/apicore/service/auth/CustomOAuth2UserService.java:46-55 | the user table starts empty and valid |
| OAuthUsers.UserRepository.FindByLogin | api-core/src/main/java/com/arte/apicore/service/auth/CustomOAuth2UserService.java:46 | the lookup loop finds the row `LoginIndex` specifies |
| OAuthUsers.UserRepository.SaveExisting | api-core/src/main/java/com/arte/apicore/service/auth/CustomOAuth2UserService.java:47-50 | saving an existing row replaces it and counts one save |
| OAuthUsers.UserRepository.SaveNew | api-core/src/main/java/com/arte/apicore/service/auth/CustomOAuth2UserService.java:51-55 | saving a new row appends it and counts one save |
| OAuthUsers.LoadUser | api-core/src/main/java/com/arte/apicore/service/auth/CustomOAuth2UserService.java:34-58 | it returns the upstream user unchanged, upserts the row for the login with the chosen or no-reply email and the token, keeps logins unique, and saves exactly once |

## Left out

- Network clients: GitHub GraphQL and REST, LeetCode GraphQL, the LinkedIn page fetch and the processing-service gRPC client. Their responses are parameters; a README fetch failure arrives as an absent README.
- PDFBox text extraction, the SHA-256 digest and the `\p{L}\p{N}\p{P}` class are parameters. So are `Character.isDigit` and the section-locating regular expressions of the résumé extractors; only their post-processing is exact.
- The random-UUID fallback of `computeHash`: SHA-256 is always present on the JVM, so that branch is not modelled.
- jsoup DOM rewriting (`cleanHtmlForMarkdown`) and flexmark's HTML-to-Markdown conversion are left out. The page fetch returns the converted text directly.
- Floating point: star rating, contest rating and top percentage are `real`. Their `%.0f`/`%.2f` rendering is a `Formatter` parameter.
- GitHubIngestion.SumsAppend: star and fork totals are unbounded; Java's 32-bit `int` overflow is not modelled.
- Lengths are counted in characters. Java counts UTF-16 code units, which differs only outside the Basic Multilingual Plane.
- The text of JVM NullPointerException messages is not modelled. Those exceptions carry a fixed placeholder message.
- UUID parsing of request ids is left out. A request carries the parse outcome, and Spring's 400 for an unparsable path UUID is not modelled.
- HashMap and HashSet iteration order: topics are a set. `TopLanguages` leaves ties in the language sort unordered.
- Transactions and the concurrent read-then-write upsert race. The model is sequential, and a method that throws is modelled as writing nothing. All of its checks come before its writes.
- ObjectMapper conversion of blobs to JSON maps: blobs are typed values.
- JWT signing and validation (jjwt) are parameters. The model does not cover AuthController's reading of claims, which uses the claims id as the user id where tokens put it in the subject; the issued tokens are functions of the presented token. The check `isValidRefreshToken` is a total boolean parameter, so it answers true or false for every token and never throws; the code catches only JwtException, and an empty token makes jjwt throw IllegalArgumentException, which escapes `refresh` as a server error that the model does not produce.
- Claims getters that throw on a claim of the wrong type: `validate` returns the claims or throws as a whole.
- `super.loadUser` and its exceptions: the upstream user is a parameter. A null login is not modelled.
- A row's position in the user table stands for its generated id.
- The word cap is a `nat`; a negative configured cap is not modelled.
- The IOException `getBytes` can throw on an upload is not modelled; the upload's bytes are given.
- The `/me` endpoint, the security configuration, the OAuth2 success handler, the API-gateway gRPC client, the processing module's LLM stub and the empty onboarding service are not part of this model.
- Json.AsDoubleOr: text reading "NaN" or "Infinity" gives the default, where Jackson returns NaN or an infinity; a double has no such value here.
- Json.AsDoubleOr: a decimal text reads as its exact value, and an integer node converts exactly; the rounding of `parseDouble` and of the long-to-double conversion to the nearest double is not modelled.
- Json.CastDouble: the cast works on the exact value of the text, so text whose double rounds to a different integer (values beyond 2^53, or fractions within half an ulp of an integer) is read without that rounding.
- Json.TruncateReal: rounds the exact value toward zero; a double's own rounding before the cast is not modelled.
- Json.ParseAsIntegral: hexadecimal floating-point text such as "0x1p3", which `parseDouble` accepts, gives the default.
- Json.AsText: a floating-point node gives "" instead of the text of `Double.toString`; the fields the code reads with `asText` hold text in the LeetCode responses.
- IngestionGrpc.IngestAll and IngestionHttp.FullIngestion take each source as a function of the user id. The database writes of the sources are modelled in their own services (`Store.Database`) but are not composed into one state across a single `ingestAll` or `fullIngestion` call.
- Store.Database.SaveJob: the `LinkedInJobs` entity has a non-null `user_id` join column that `ingestLinkedInJob` never sets, so the real save can fail on that constraint; the model always saves the job.
- Clock reads: each ingestion reads the clock several times (`LocalDateTime.now()` for lastSynced and `Instant.now()` for lastIngestedAt in the GitHub service, three reads in the résumé service, one rendered with `toString()`). The model passes one `now` instant for all of them, so those timestamps are equal in the model where the code does not promise it; no contract relies on that equality.
- Lower-casing: `IsBearer` lowers ASCII letters only. Only ASCII letters lower-case to the letters of "bearer ", so this matches `toLowerCase` for that test.
