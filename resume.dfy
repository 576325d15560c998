/** processResume: validate the upload, extract and clean its text, cap it,
    fingerprint the file, store the résumé blob and the knowledge-base entry. */
module ResumeProcessing {
  import opened Wrappers
  import opened Strings
  import opened Entities
  import opened Store
  import opened ResumeText
  import opened ResumeSections

  const SourceType: string := "resume"
  const SourceUrlScheme: string := "resume://"
  const UserNotFoundPrefix: string := "User not found: "
  const InvalidTypeMessage: string := "Invalid file type. Only PDF files are supported."
  const NoTextMessage: string := "Could not extract text from PDF"
  const SuccessMessage: string := "Successfully processed resume"

  /** The multipart upload: original file name and declared content type (each
      may be null) and the file's bytes. */
  datatype Upload = Upload(fileName: Option<string>, contentType: Option<string>, bytes: seq<byte>)

  datatype ProcessingResult = ProcessingResult(success: bool, message: string, wordCount: int)

  /** The text stored for the résumé: cleaned, then capped at `wordCap` words. */
  function CappedText(raw: string, isLNP: char -> bool, wordCap: nat): string {
    CapWords(CleanText(raw, isLNP), wordCap)
  }

  function SourceUrl(userId: UserId, fileHash: string): string {
    SourceUrlScheme + userId + "/" + fileHash
  }

  function ResumeKey(userId: UserId, fileHash: string): EntryKey {
    EntryKey(userId, SourceType, SourceUrl(userId, fileHash))
  }

  /** The résumé blob: the capped text, its word count and the sections
      extracted from it. */
  function SummaryOf(fileName: Option<string>, fileHash: string, capped: string,
                     m: Matches, now: Instant): (r: ResumeSummary)
    ensures r.rawText == capped && r.wordCount == CountWords(capped)
    ensures r.skills == SkillsOf(m.skillLines)
    ensures |r.experiences| <= ExperienceLimit && |r.education| <= EducationLimit
  {
    ResumeSummary(fileName, fileHash, CountWords(capped), now, capped,
                  SkillsOf(m.skillLines), ExperiencesOf(m.experiencePieces),
                  EducationOf(m.educationPieces), ResumeSections.SummaryOf(m.labelledSummary, capped))
  }

  /** processResume. `extractPdfText` is PDFBox's text stripper (None when the
      document cannot be loaded), `sha256` the message digest, `isLNP` the
      Unicode test for letters, digits and punctuation, `locate` the regular
      expressions of the section extractors, `wordCap` the configured cap and
      `now` the clock. The method is transactional: when it throws, nothing it
      saved remains. */
  method ProcessResume(db: Database, userId: UserId, file: Upload,
                       extractPdfText: seq<byte> -> Option<string>,
                       sha256: seq<byte> -> seq<byte>,
                       isLNP: char -> bool,
                       locate: string -> Matches,
                       wordCap: nat, now: Instant)
    returns (out: Outcome<ProcessingResult>)
    requires db.Valid()
    modifies db
    ensures db.Valid()
    ensures userId !in old(db.users) ==>
              out == Threw(JavaException(IllegalArgument, UserNotFoundPrefix + userId)) && unchanged(db)
    ensures userId in old(db.users) && !IsPdfFile(file.contentType, file.fileName) ==>
              out == Returned(ProcessingResult(false, InvalidTypeMessage, 0)) && unchanged(db)
    ensures userId in old(db.users) && IsPdfFile(file.contentType, file.fileName) ==>
              var raw := extractPdfText(file.bytes);
              if raw.None? || IsBlank(raw.value) then
                out == Returned(ProcessingResult(false, NoTextMessage, 0)) && unchanged(db)
              else if FingerprintOf(sha256(file.bytes)).Threw? then
                out == Threw(FingerprintOf(sha256(file.bytes)).exception) && unchanged(db)
              else if file.fileName.None? then
                out == Threw(NullPointerException()) && unchanged(db)
              else
                var capped := CappedText(raw.value, isLNP, wordCap);
                var hash := FingerprintOf(sha256(file.bytes)).value;
                var summary := SummaryOf(file.fileName, hash, capped, locate(capped), now);
                && out == Returned(ProcessingResult(true, SuccessMessage, CountWords(capped)))
                && db.profiles == old(db.profiles)[userId := WithBlob(
                     if userId in old(db.profiles) then Some(old(db.profiles)[userId]) else None,
                     ResumeBlob(summary), now)]
                && db.kb == UpsertTable(old(db.kb), ResumeKey(userId, hash), capped,
                                        ResumeMetadata(file.fileName.value, hash, CountWords(capped), now))
                && db.users == old(db.users) && db.jobs == old(db.jobs)
  {
    if userId !in db.users {
      return Threw(JavaException(IllegalArgument, UserNotFoundPrefix + userId));
    }
    if !IsPdfFile(file.contentType, file.fileName) {
      return Returned(ProcessingResult(false, InvalidTypeMessage, 0));
    }
    var rawText := extractPdfText(file.bytes);
    if rawText.None? || IsBlank(rawText.value) {
      return Returned(ProcessingResult(false, NoTextMessage, 0));
    }
    var cappedText := CappedText(rawText.value, isLNP, wordCap);
    var wordCount := CountWords(cappedText);
    var hashed := ComputeHash(sha256(file.bytes));
    if hashed.Threw? {
      return Threw(hashed.exception);
    }
    var fileHash := hashed.value;
    var m := locate(cappedText);
    var skills := ExtractSkills(m.skillLines);
    var experiences := CollectEntries(m.experiencePieces, ExperienceMinLength, ExperienceCut, ExperienceLimit);
    var education := CollectEntries(m.educationPieces, EducationMinLength, EducationCut, EducationLimit);
    var summaryText := ExtractSummary(m.labelledSummary, cappedText);
    var summary := ResumeSummary(file.fileName, fileHash, wordCount, now, cappedText,
                                 skills, experiences, education, summaryText);
    // Map.of rejects the null file name after the blob was saved; the
    // transaction then rolls that save back, so the model checks first.
    if file.fileName.None? {
      return Threw(NullPointerException());
    }
    db.SaveBlob(userId, ResumeBlob(summary), now);
    db.Upsert(ResumeKey(userId, fileHash), cappedText,
              ResumeMetadata(file.fileName.value, fileHash, wordCount, now));
    return Returned(ProcessingResult(true, SuccessMessage, wordCount));
  }

  /** The reported word count never exceeds the cap (given that no letter,
      digit or punctuation character is whitespace). */
  lemma WordCountWithinCap(raw: string, isLNP: char -> bool, wordCap: nat)
    requires forall c :: IsJavaWhitespace(c) ==> !isLNP(c)
    ensures CountWords(CappedText(raw, isLNP, wordCap)) == Min(wordCap, CountWords(CleanText(raw, isLNP)))
    ensures CountWords(CappedText(raw, isLNP, wordCap)) <= wordCap
  {
    ReportedWordCount(raw, isLNP, wordCap);
  }

  /** Cleaning removes everything from a text without letters, digits or
      punctuation. */
  lemma CleanedAway(raw: string, isLNP: char -> bool)
    requires forall i :: 0 <= i < |raw| ==> !isLNP(raw[i])
    ensures CleanText(raw, isLNP) == []
  {
    CleanTextShape(raw, isLNP);
  }

  /** The blank check runs before cleaning: a PDF whose text has no letter,
      digit or punctuation character passes it, is stored with empty text and
      reported as a success with zero words. */
  lemma SymbolsOnlyTextCountsZero(raw: string, isLNP: char -> bool, wordCap: nat)
    requires forall i :: 0 <= i < |raw| ==> !isLNP(raw[i])
    ensures CappedText(raw, isLNP, wordCap) == []
    ensures CountWords(CappedText(raw, isLNP, wordCap)) == 0
  {
    CleanedAway(raw, isLNP);
    EmptyTextCapped(wordCap);
  }

  lemma EmptyTextCapped(wordCap: nat)
    ensures CapWords([], wordCap) == [] && CountWords([]) == 0
  {
    var empty: string := [];
    assert SplitOnSpaceRuns(empty) == [[]];
    assert IsBlank(empty);
  }

  /** Re-processing the same file for the same user addresses the same entry:
      the key is determined by the user and the fingerprint, and different
      fingerprints give different keys. */
  lemma ResumeKeyIdentifiesFile(userId: UserId, h1: string, h2: string)
    ensures ResumeKey(userId, h1) == ResumeKey(userId, h2) <==> h1 == h2
  {
    if ResumeKey(userId, h1) == ResumeKey(userId, h2) {
      var prefix := SourceUrlScheme + userId + "/";
      assert SourceUrl(userId, h1) == prefix + h1;
      assert SourceUrl(userId, h2) == prefix + h2;
      assert h1 == (prefix + h1)[|prefix|..];
      assert h2 == (prefix + h2)[|prefix|..];
    }
  }
}
