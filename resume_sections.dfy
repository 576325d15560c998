/** The section extractors of résumé processing: skills, work experience,
    education and the summary. Where each regular expression matches is the
    `Matches` value handed in; what the code does with the matched text (the
    delimiter split, trimming, length filters, de-duplication, truncation,
    limits and the paragraph fallback) is modelled here. */
module ResumeSections {
  import opened Wrappers
  import opened Strings

  const SkillLimit: nat := 30
  /** A skill must be shorter than this. */
  const SkillMaxLength: nat := 50
  const ExperienceLimit: nat := 10
  /** An experience entry must be longer than this. */
  const ExperienceMinLength: nat := 20
  const ExperienceCut: nat := 500
  const EducationLimit: nat := 5
  const EducationMinLength: nat := 10
  const EducationCut: nat := 300
  const Ellipsis: string := "..."
  /** A fallback paragraph must be strictly between these lengths. */
  const ParagraphMinLength: nat := 100
  const ParagraphMaxLength: nat := 500

  /** What the regular expressions find in the capped text:
      - `skillLines`: group 1 of every match of the five skill patterns, pattern
        by pattern and match by match;
      - `experiencePieces`: when the experience pattern matches, the pieces its
        trimmed group 2 splits into before each date or month name;
      - `educationPieces`: likewise for the education pattern and degree words;
      - `labelledSummary`: group 2 of the first summary-pattern match. */
  datatype Matches = Matches(
    skillLines: seq<string>,
    experiencePieces: Option<seq<string>>,
    educationPieces: Option<seq<string>>,
    labelledSummary: Option<string>)

  // ---- distinct ------------------------------------------------------------

  predicate NoDuplicates(xs: seq<string>) {
    forall i, j :: 0 <= i < j < |xs| ==> xs[i] != xs[j]
  }

  /** `stream().distinct()`: the first occurrence of each element, in order. */
  function Distinct(xs: seq<string>): (r: seq<string>)
    ensures NoDuplicates(r)
    ensures forall x :: x in r <==> x in xs
    ensures |r| <= |xs|
  {
    if xs == [] then []
    else
      var d := Distinct(xs[..|xs| - 1]);
      var x := xs[|xs| - 1];
      if x in d then d else d + [x]
  }

  /** De-duplicating a prefix gives a prefix of the de-duplicated whole, which
      is what lets `limit` stop the lazy stream early. */
  lemma {:induction false} DistinctOfPrefix(xs: seq<string>, i: nat)
    requires i <= |xs|
    ensures |Distinct(xs[..i])| <= |Distinct(xs)|
    ensures Distinct(xs[..i]) == Distinct(xs)[..|Distinct(xs[..i])|]
    decreases |xs|
  {
    if i < |xs| {
      var p := xs[..|xs| - 1];
      DistinctOfPrefix(p, i);
      assert p[..i] == xs[..i];
      var d := Distinct(p);
      assert Distinct(xs) == d || Distinct(xs) == d + [xs[|xs| - 1]];
    } else {
      assert xs[..i] == xs;
    }
  }

  /** `stream().distinct().limit(limit)`, pulling elements until the limit is
      reached. */
  method DistinctLimit(xs: seq<string>, limit: nat) returns (r: seq<string>)
    ensures r == Take(Distinct(xs), limit)
  {
    r := [];
    var i := 0;
    while i < |xs| && |r| < limit
      invariant 0 <= i <= |xs|
      invariant r == Distinct(xs[..i])
      invariant |r| <= limit
    {
      assert xs[..i + 1][..i] == xs[..i];
      if xs[i] !in r {
        r := r + [xs[i]];
      }
      i := i + 1;
    }
    DistinctOfPrefix(xs, i);
    if i == |xs| {
      assert xs[..i] == xs;
    }
  }

  // ---- skills --------------------------------------------------------------

  /** The character class `[,;|•·]`. */
  predicate IsSkillDelimiter(c: char) {
    c == ',' || c == ';' || c == '|' || c == '•' || c == '·'
  }

  predicate NoDelimiter(s: string) {
    forall i :: 0 <= i < |s| ==> !IsSkillDelimiter(s[i])
  }

  /** The pieces between delimiters, empty ones included. (Java's split drops
      trailing empty pieces; every empty piece is filtered out afterwards, so
      keeping them changes nothing.) */
  function DelimitedPieces(s: string): (r: seq<string>)
    ensures |r| >= 1
    ensures forall p :: p in r ==> NoDelimiter(p)
    decreases |s|
  {
    if s == [] then [[]]
    else if IsSkillDelimiter(s[0]) then [[]] + DelimitedPieces(s[1..])
    else
      var ps := DelimitedPieces(s[1..]);
      assert ps[0] in ps;
      [[s[0]] + ps[0]] + ps[1..]
  }

  predicate IsSkill(s: string) {
    s != [] && |s| < SkillMaxLength
  }

  /** A skill as it is kept: trimmed, non-empty, shorter than 50, and free of
      delimiters. */
  predicate IsKeptSkill(s: string) {
    IsSkill(s) && IsTrimmed(s) && NoDelimiter(s)
  }

  /** What one piece contributes: its trimmed form when that qualifies. */
  function SkillOf(piece: string): seq<string> {
    if IsSkill(Trim(piece)) then [Trim(piece)] else []
  }

  /** The trimmed pieces that qualify as skills, in order. */
  function KeptSkills(pieces: seq<string>): seq<string> {
    if pieces == [] then []
    else KeptSkills(pieces[..|pieces| - 1]) + SkillOf(pieces[|pieces| - 1])
  }

  /** Trimming a delimiter-free piece leaves it delimiter-free. */
  lemma TrimKeepsNoDelimiter(p: string)
    requires NoDelimiter(p)
    ensures NoDelimiter(Trim(p))
  {
    var c := Trim(p);
    TrimChars(p);
    forall i | 0 <= i < |c| ensures !IsSkillDelimiter(c[i]) {
      var j :| 0 <= j < |p| && p[j] == c[i];
    }
  }

  lemma {:induction false} KeptSkillsAreSkills(pieces: seq<string>)
    requires forall p :: p in pieces ==> NoDelimiter(p)
    ensures forall s :: s in KeptSkills(pieces) ==> IsKeptSkill(s)
  {
    if pieces != [] {
      var prefix := pieces[..|pieces| - 1];
      var last := pieces[|pieces| - 1];
      assert forall p :: p in prefix ==> p in pieces;
      KeptSkillsAreSkills(prefix);
      TrimKeepsNoDelimiter(last);
    }
  }

  /** Every skill candidate of every matched line, in the order found. */
  function SkillCandidates(lines: seq<string>): seq<string> {
    if lines == [] then []
    else SkillCandidates(lines[..|lines| - 1]) + KeptSkills(DelimitedPieces(Trim(lines[|lines| - 1])))
  }

  lemma {:induction false} CandidatesAreSkills(lines: seq<string>)
    ensures forall s :: s in SkillCandidates(lines) ==> IsKeptSkill(s)
  {
    if lines != [] {
      CandidatesAreSkills(lines[..|lines| - 1]);
      KeptSkillsAreSkills(DelimitedPieces(Trim(lines[|lines| - 1])));
    }
  }

  /** extractSkills: the distinct candidates, at most 30. */
  function SkillsOf(lines: seq<string>): seq<string> {
    Take(Distinct(SkillCandidates(lines)), SkillLimit)
  }

  /** The skills list holds at most 30 distinct kept skills, all of them
      candidates, and drops none when there are at most 30 distinct ones. */
  lemma SkillsShape(lines: seq<string>)
    ensures var r := SkillsOf(lines);
            && |r| <= SkillLimit
            && NoDuplicates(r)
            && (forall s :: s in r ==> IsKeptSkill(s) && s in SkillCandidates(lines))
            && (|Distinct(SkillCandidates(lines))| <= SkillLimit ==>
                  forall s :: s in SkillCandidates(lines) ==> s in r)
  {
    CandidatesAreSkills(lines);
    var d := Distinct(SkillCandidates(lines));
    var r := SkillsOf(lines);
    forall s | s in r ensures s in d {
      var k :| 0 <= k < |r| && r[k] == s;
      assert d[k] == s;
    }
  }

  /** One more piece appends what it contributes. */
  lemma KeptSkillsStep(pieces: seq<string>, j: nat)
    requires j < |pieces|
    ensures KeptSkills(pieces[..j + 1]) == KeptSkills(pieces[..j]) + SkillOf(pieces[j])
  {
    assert pieces[..j + 1][..j] == pieces[..j];
  }

  /** The inner loop of extractSkills: trim each piece and keep it when it
      qualifies. */
  method KeepSkills(pieces: seq<string>) returns (kept: seq<string>)
    ensures kept == KeptSkills(pieces)
  {
    kept := [];
    var j := 0;
    while j < |pieces|
      invariant 0 <= j <= |pieces|
      invariant kept == KeptSkills(pieces[..j])
    {
      KeptSkillsStep(pieces, j);
      kept := kept + SkillOf(pieces[j]);
      j := j + 1;
    }
    assert pieces[..j] == pieces;
  }

  lemma CandidatesStep(lines: seq<string>, i: nat)
    requires i < |lines|
    ensures SkillCandidates(lines[..i + 1])
         == SkillCandidates(lines[..i]) + KeptSkills(DelimitedPieces(Trim(lines[i])))
  {
    assert lines[..i + 1][..i] == lines[..i];
  }

  /** The outer loop of extractSkills: for each matched line, trim it, split
      it at the delimiters and keep the trimmed pieces that qualify. */
  method CollectSkillCandidates(lines: seq<string>) returns (all: seq<string>)
    ensures all == SkillCandidates(lines)
  {
    var found: seq<string> := [];
    var i := 0;
    while i < |lines|
      invariant 0 <= i <= |lines|
      invariant found == SkillCandidates(lines[..i])
    {
      var pieces := DelimitedPieces(Trim(lines[i]));
      var kept := KeepSkills(pieces);
      CandidatesStep(lines, i);
      found := found + kept;
      i := i + 1;
    }
    assert lines[..i] == lines;
    all := found;
  }

  /** extractSkills: the candidates, de-duplicated and limited. */
  method ExtractSkills(lines: seq<string>) returns (skills: seq<string>)
    ensures skills == SkillsOf(lines)
  {
    var all := CollectSkillCandidates(lines);
    skills := DistinctLimit(all, SkillLimit);
  }

  // ---- experience and education ---------------------------------------------

  /** Keep the first `cut` characters and append "..." when longer than `cut`. */
  function Truncate(s: string, cut: nat): (r: string)
    ensures |s| <= cut ==> r == s
    ensures |s| > cut ==> |r| == cut + |Ellipsis|
  {
    if |s| > cut then s[..cut] + Ellipsis else s
  }

  /** A truncated text keeps the first `cut` characters and ends in "...". */
  lemma TruncatedShape(s: string, cut: nat)
    requires |s| > cut
    ensures Truncate(s, cut)[..cut] == s[..cut] && Truncate(s, cut)[cut..] == Ellipsis
  {
    var r := Truncate(s, cut);
    assert r == s[..cut] + Ellipsis;
  }

  /** `e` is what piece `p` becomes when it is kept. */
  predicate EntryFrom(e: string, p: string, minLength: nat, cut: nat) {
    minLength < |Trim(p)| && e == Truncate(Trim(p), cut)
  }

  /** What one piece contributes: its trimmed form, truncated, when that is
      longer than `minLength`. */
  function EntryOf(piece: string, minLength: nat, cut: nat): (r: seq<string>)
    ensures |r| <= 1
  {
    if Trim(piece) != [] && |Trim(piece)| > minLength then [Truncate(Trim(piece), cut)] else []
  }

  /** The trimmed pieces longer than `minLength`, each truncated at `cut`. */
  function KeptEntries(pieces: seq<string>, minLength: nat, cut: nat): (r: seq<string>)
    ensures |r| <= |pieces|
  {
    if pieces == [] then []
    else KeptEntries(pieces[..|pieces| - 1], minLength, cut) + EntryOf(pieces[|pieces| - 1], minLength, cut)
  }

  /** Every entry is what some piece becomes when it is kept. */
  lemma {:induction false} EntriesComeFromPieces(pieces: seq<string>, minLength: nat, cut: nat)
    ensures forall e :: e in KeptEntries(pieces, minLength, cut) ==>
              exists p :: p in pieces && EntryFrom(e, p, minLength, cut)
  {
    if pieces != [] {
      var prefix := pieces[..|pieces| - 1];
      var last := pieces[|pieces| - 1];
      EntriesComeFromPieces(prefix, minLength, cut);
      forall e | e in KeptEntries(pieces, minLength, cut)
        ensures exists p :: p in pieces && EntryFrom(e, p, minLength, cut)
      {
        if e in KeptEntries(prefix, minLength, cut) {
          var p :| p in prefix && EntryFrom(e, p, minLength, cut);
          assert p in pieces;
        } else {
          assert EntryFrom(e, last, minLength, cut);
        }
      }
    }
  }

  /** One more piece appends what it contributes. */
  lemma KeptEntriesStep(pieces: seq<string>, minLength: nat, cut: nat, i: nat)
    requires i < |pieces|
    ensures KeptEntries(pieces[..i + 1], minLength, cut)
            == KeptEntries(pieces[..i], minLength, cut) + EntryOf(pieces[i], minLength, cut)
  {
    assert pieces[..i + 1][..i] == pieces[..i];
  }

  /** Every entry is longer than the minimum and is either a whole trimmed
      piece of at most `cut` characters or the first `cut` characters of a
      longer one followed by "...". */
  lemma EntryBounds(pieces: seq<string>, minLength: nat, cut: nat)
    requires minLength < cut
    ensures forall e :: e in KeptEntries(pieces, minLength, cut) ==>
              && minLength < |e| <= cut + |Ellipsis|
              && (|e| <= cut ==> IsTrimmed(e))
              && (|e| > cut ==> e[cut..] == Ellipsis)
  {
    forall e | e in KeptEntries(pieces, minLength, cut)
      ensures minLength < |e| <= cut + |Ellipsis|
      ensures |e| <= cut ==> IsTrimmed(e)
      ensures |e| > cut ==> e[cut..] == Ellipsis
    {
      EntriesComeFromPieces(pieces, minLength, cut);
      var p :| p in pieces && EntryFrom(e, p, minLength, cut);
      if |Trim(p)| > cut {
        TruncatedShape(Trim(p), cut);
      }
    }
  }

  /** The entries of a section: none when the section pattern did not match,
      otherwise the kept entries up to the limit. */
  function EntriesOf(pieces: Option<seq<string>>, minLength: nat, cut: nat, limit: nat): (r: seq<string>)
    ensures |r| <= limit
    ensures pieces.None? ==> r == []
  {
    if pieces.None? then [] else Take(KeptEntries(pieces.value, minLength, cut), limit)
  }

  /** The loop extractExperiences and extractEducation share: trim each piece,
      keep it when longer than `minLength`, truncated at `cut`; then limit. */
  method CollectEntries(pieces: Option<seq<string>>, minLength: nat, cut: nat, limit: nat)
    returns (entries: seq<string>)
    ensures entries == EntriesOf(pieces, minLength, cut, limit)
  {
    var all: seq<string> := [];
    if pieces.Some? {
      var ps := pieces.value;
      var i := 0;
      while i < |ps|
        invariant 0 <= i <= |ps|
        invariant all == KeptEntries(ps[..i], minLength, cut)
      {
        KeptEntriesStep(ps, minLength, cut, i);
        all := all + EntryOf(ps[i], minLength, cut);
        i := i + 1;
      }
      assert ps[..i] == ps;
    }
    entries := Take(all, limit);
  }

  function ExperiencesOf(pieces: Option<seq<string>>): seq<string> {
    EntriesOf(pieces, ExperienceMinLength, ExperienceCut, ExperienceLimit)
  }

  function EducationOf(pieces: Option<seq<string>>): seq<string> {
    EntriesOf(pieces, EducationMinLength, EducationCut, EducationLimit)
  }

  /** At most ten experience entries of 21 to 503 characters, and at most five
      education entries of 11 to 303 characters. */
  lemma SectionEntryBounds(m: Matches)
    ensures var xs := ExperiencesOf(m.experiencePieces);
            |xs| <= ExperienceLimit
            && forall e :: e in xs ==> ExperienceMinLength < |e| <= ExperienceCut + 3
    ensures var es := EducationOf(m.educationPieces);
            |es| <= EducationLimit
            && forall e :: e in es ==> EducationMinLength < |e| <= EducationCut + 3
  {
    if m.experiencePieces.Some? {
      EntryBounds(m.experiencePieces.value, ExperienceMinLength, ExperienceCut);
    }
    if m.educationPieces.Some? {
      EntryBounds(m.educationPieces.value, EducationMinLength, EducationCut);
    }
  }

  // ---- summary -------------------------------------------------------------

  /** Pieces between non-overlapping occurrences of "\n\n", left to right,
      empty pieces included. */
  function ParagraphPieces(s: string): (r: seq<string>)
    ensures |r| >= 1
    decreases |s|
  {
    if s == [] then [[]]
    else if |s| >= 2 && s[0] == '\n' && s[1] == '\n' then [[]] + ParagraphPieces(s[2..])
    else
      var ps := ParagraphPieces(s[1..]);
      [[s[0]] + ps[0]] + ps[1..]
  }

  /** `split("\\n\\n")`: the empty text gives one empty paragraph; otherwise
      trailing empty pieces are dropped. */
  function Paragraphs(s: string): seq<string> {
    if s == [] then [[]] else DropTrailingEmpty(ParagraphPieces(s))
  }

  predicate IsFallbackParagraph(p: string) {
    ParagraphMinLength < |p| < ParagraphMaxLength
  }

  /** The position of the first paragraph of suitable length, if any. */
  function FirstFallbackIndex(ps: seq<string>): (r: Option<nat>)
    ensures r.None? <==> forall i :: 0 <= i < |ps| ==> !IsFallbackParagraph(ps[i])
    ensures r.Some? ==> r.value < |ps| && IsFallbackParagraph(ps[r.value])
    ensures r.Some? ==> forall j :: 0 <= j < r.value ==> !IsFallbackParagraph(ps[j])
    decreases |ps|
  {
    if |ps| == 0 then None
    else if IsFallbackParagraph(ps[0]) then Some(0)
    else
      match FirstFallbackIndex(ps[1..])
      case None => None
      case Some(i) => Some(i + 1)
  }

  /** The first paragraph of suitable length, trimmed; "" when there is none. */
  function FirstParagraphOf(ps: seq<string>): (r: string)
    ensures (forall i :: 0 <= i < |ps| ==> !IsFallbackParagraph(ps[i])) ==> r == []
  {
    match FirstFallbackIndex(ps)
    case None => []
    case Some(k) => Trim(ps[k])
  }

  /** The fallback takes the first suitable paragraph, whatever follows it. */
  lemma FirstParagraphIsFirst(ps: seq<string>, i: nat)
    requires i < |ps| && IsFallbackParagraph(ps[i])
    requires forall j :: 0 <= j < i ==> !IsFallbackParagraph(ps[j])
    ensures FirstParagraphOf(ps) == Trim(ps[i])
  {
    var k := FirstFallbackIndex(ps).value;
    assert !(k < i) && !(i < k);
  }

  /** extractSummary: the trimmed labelled summary when the pattern matched,
      otherwise the paragraph fallback. */
  function SummaryOf(labelled: Option<string>, text: string): string {
    if labelled.Some? then Trim(labelled.value) else FirstParagraphOf(Paragraphs(text))
  }

  /** The fallback loop: return the first suitable paragraph, trimmed. */
  method FirstParagraph(ps: seq<string>) returns (summary: string)
    ensures summary == FirstParagraphOf(ps)
  {
    var i := 0;
    while i < |ps|
      invariant 0 <= i <= |ps|
      invariant forall j :: 0 <= j < i ==> !IsFallbackParagraph(ps[j])
    {
      if IsFallbackParagraph(ps[i]) {
        FirstParagraphIsFirst(ps, i);
        return Trim(ps[i]);
      }
      i := i + 1;
    }
    return [];
  }

  method ExtractSummary(labelled: Option<string>, text: string) returns (summary: string)
    ensures summary == SummaryOf(labelled, text)
  {
    if labelled.Some? {
      return Trim(labelled.value);
    }
    summary := FirstParagraph(Paragraphs(text));
  }

  lemma {:induction false} PiecesWithoutNewline(s: string)
    requires forall i :: 0 <= i < |s| ==> s[i] != '\n'
    ensures ParagraphPieces(s) == [s]
    decreases |s|
  {
    if s != [] {
      PiecesWithoutNewline(s[1..]);
      assert [s[0]] + s[1..] == s;
    }
  }

  /** Text without newlines (such as cleaned résumé text) is one paragraph, so
      without a labelled summary the summary is the whole text trimmed when it
      has between 101 and 499 characters, and "" otherwise. */
  lemma SummaryOfSingleLine(text: string)
    requires forall i :: 0 <= i < |text| ==> text[i] != '\n'
    ensures SummaryOf(None, text) == if IsFallbackParagraph(text) then Trim(text) else []
  {
    if text != [] {
      PiecesWithoutNewline(text);
      assert Paragraphs(text) == [text];
    }
  }
}
