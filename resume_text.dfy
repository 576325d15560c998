/** The text pipeline of résumé processing: the PDF-type check, whitespace
    cleaning, the word cap and word count, and the hex fingerprint of the
    file's digest. */
module ResumeText {
  import opened Wrappers
  import opened Strings

  const PdfContentType: string := "application/pdf"
  const PdfSuffix: string := ".pdf"
  const DefaultWordCap: nat := 3000
  /** How many hex characters of the digest the fingerprint keeps. */
  const FingerprintLength: nat := 16

  // ---- isPdfFile -----------------------------------------------------------

  /** isPdfFile: the declared content type is exactly "application/pdf", or the
      original file name, lower-cased, ends with ".pdf". */
  predicate IsPdfFile(contentType: Option<string>, fileName: Option<string>) {
    (contentType.Some? && contentType.value == PdfContentType)
    || (fileName.Some? && EndsWith(LowerAsciiString(fileName.value), PdfSuffix))
  }

  /** The name check ignores letter case: "CV.PDF" passes like "cv.pdf". */
  lemma PdfSuffixAnyCase(base: string)
    ensures IsPdfFile(None, Some(base + ".PDF")) && IsPdfFile(None, Some(base + ".pdf"))
    ensures !IsPdfFile(None, None) && !IsPdfFile(Some("text/plain"), Some(base + ".txt"))
  {
    var up := base + ".PDF";
    var low := LowerAsciiString(up);
    assert low[|low| - 4..] == ".pdf";
    var low2 := LowerAsciiString(base + ".pdf");
    assert low2[|low2| - 4..] == ".pdf";
    var low3 := LowerAsciiString(base + ".txt");
    assert low3[|low3| - 4..] == ".txt";
  }

  // ---- cleanText -----------------------------------------------------------

  /** `replaceAll("\\s+", " ")`: every maximal run of regex spaces becomes one
      space. */
  function CollapseSpaceRuns(s: string): (r: string)
    ensures forall c :: c in r ==> c == ' ' || (c in s && !IsRegexSpace(c))
    decreases |s|
  {
    if s == [] then []
    else if IsRegexSpace(s[0]) then
      var d := DropSpaces(s);
      DropSpacesSuffix(s);
      assert forall c :: c in d ==> c in s;
      " " + CollapseSpaceRuns(d)
    else
      assert forall c :: c in s[1..] ==> c in s;
      [s[0]] + CollapseSpaceRuns(s[1..])
  }

  /** `replaceAll("[^\\p{L}\\p{N}\\p{P}\\s]", "")`: keep letters, digits,
      punctuation (the predicate `isLNP`) and regex spaces. */
  function KeepMeaningful(s: string, isLNP: char -> bool): (r: string)
    ensures forall i :: 0 <= i < |r| ==> r[i] in s && (isLNP(r[i]) || IsRegexSpace(r[i]))
    decreases |s|
  {
    if s == [] then []
    else (if isLNP(s[0]) || IsRegexSpace(s[0]) then [s[0]] else []) + KeepMeaningful(s[1..], isLNP)
  }

  /** `replaceAll("\\r\\n|\\r", "\n")`. */
  function NormalizeLineEndings(s: string): string
    decreases |s|
  {
    if s == [] then []
    else if s[0] == '\r' then "\n" + NormalizeLineEndings(if |s| > 1 && s[1] == '\n' then s[2..] else s[1..])
    else [s[0]] + NormalizeLineEndings(s[1..])
  }

  /** The number of newlines the text starts with. */
  function LeadingNewlines(s: string): (n: nat)
    ensures n <= |s| && forall i :: 0 <= i < n ==> s[i] == '\n'
    ensures n < |s| ==> s[n] != '\n'
    decreases |s|
  {
    if s != [] && s[0] == '\n' then 1 + LeadingNewlines(s[1..]) else 0
  }

  /** `replaceAll("\\n{3,}", "\n\n")`: a run of three or more newlines becomes two. */
  function CollapseBlankLines(s: string): string
    decreases |s|
  {
    if s == [] then []
    else
      var n := LeadingNewlines(s);
      if n >= 3 then "\n\n" + CollapseBlankLines(s[n..])
      else if n > 0 then s[..n] + CollapseBlankLines(s[n..])
      else [s[0]] + CollapseBlankLines(s[1..])
  }

  /** cleanText. */
  function CleanText(text: string, isLNP: char -> bool): string {
    Trim(CollapseBlankLines(NormalizeLineEndings(KeepMeaningful(CollapseSpaceRuns(text), isLNP))))
  }

  predicate NoChar(s: string, c: char) {
    forall i :: 0 <= i < |s| ==> s[i] != c
  }

  lemma {:induction false} NormalizeWithoutCarriageReturn(s: string)
    requires NoChar(s, '\r')
    ensures NormalizeLineEndings(s) == s
    decreases |s|
  {
    if s != [] {
      assert NoChar(s[1..], '\r') by {
        forall i | 0 <= i < |s[1..]| ensures s[1..][i] != '\r' {
          assert s[1..][i] == s[i + 1];
        }
      }
      NormalizeWithoutCarriageReturn(s[1..]);
    }
  }

  lemma {:induction false} CollapseWithoutNewline(s: string)
    requires NoChar(s, '\n')
    ensures CollapseBlankLines(s) == s
    decreases |s|
  {
    if s != [] {
      assert LeadingNewlines(s) == 0;
      assert NoChar(s[1..], '\n') by {
        forall i | 0 <= i < |s[1..]| ensures s[1..][i] != '\n' {
          assert s[1..][i] == s[i + 1];
        }
      }
      CollapseWithoutNewline(s[1..]);
    }
  }

  /** The first replacement already turned every newline and carriage return
      into a space, so the two line-ending rules never change anything. */
  lemma CleanTextLineRulesAreNoOps(text: string, isLNP: char -> bool)
    ensures CleanText(text, isLNP) == Trim(KeepMeaningful(CollapseSpaceRuns(text), isLNP))
  {
    var k := KeepMeaningful(CollapseSpaceRuns(text), isLNP);
    assert NoChar(k, '\r') && NoChar(k, '\n') by {
      forall i | 0 <= i < |k| ensures k[i] != '\r' && k[i] != '\n' {
        assert k[i] in CollapseSpaceRuns(text);
      }
    }
    NormalizeWithoutCarriageReturn(k);
    CollapseWithoutNewline(k);
  }

  /** Cleaned text is trimmed, has no newline, carriage return or tab (the only
      regex space left is ' '), and keeps only letters, digits, punctuation and
      spaces of the input. */
  lemma CleanTextShape(text: string, isLNP: char -> bool)
    ensures var r := CleanText(text, isLNP);
            && IsTrimmed(r)
            && (forall i :: 0 <= i < |r| ==> r[i] == ' ' || (isLNP(r[i]) && r[i] in text))
            && (forall i :: 0 <= i < |r| ==> IsRegexSpace(r[i]) ==> r[i] == ' ')
  {
    CleanTextLineRulesAreNoOps(text, isLNP);
    var c := CollapseSpaceRuns(text);
    var k := KeepMeaningful(c, isLNP);
    var r := Trim(k);
    TrimChars(k);
    forall i | 0 <= i < |r| ensures r[i] == ' ' || (isLNP(r[i]) && r[i] in text) {
      var j :| 0 <= j < |k| && k[j] == r[i];
      assert k[j] in c;
    }
  }

  // ---- capWords and countWords --------------------------------------------

  /** capWords: the text when it has at most `maxWords` words, otherwise its
      first `maxWords` words joined by single spaces. */
  function CapWords(text: string, maxWords: nat): string {
    var words := SplitOnSpaceRuns(text);
    if |words| <= maxWords then text else Join(" ", words[..maxWords])
  }

  /** countWords: 0 for blank text, otherwise the number of split pieces. */
  function CountWords(text: string): nat {
    if IsBlank(text) then 0 else |SplitOnSpaceRuns(text)|
  }

  /** Text in the shape cleanText leaves: trimmed, and every character
      Character.isWhitespace accepts is a plain space. */
  predicate IsCleanShape(t: string) {
    IsTrimmed(t) && forall i :: 0 <= i < |t| ==> IsJavaWhitespace(t[i]) ==> t[i] == ' '
  }

  /** On cleaned text, capping keeps exactly the first `n` words: the capped
      text splits to the first min(n, count) words and counts that many. */
  lemma CapThenCount(t: string, n: nat)
    requires IsCleanShape(t)
    ensures CountWords(CapWords(t, n)) == Min(n, CountWords(t))
    ensures t != [] && n > 0 ==> SplitOnSpaceRuns(CapWords(t, n)) == SplitOnSpaceRuns(t)[..Min(n, |SplitOnSpaceRuns(t)|)]
  {
    var words := SplitOnSpaceRuns(t);
    if t == [] {
      assert IsBlank(t);
      assert Join(" ", words[..0]) == [];
    } else {
      assert !IsRegexSpace(t[0]);
      assert !IsBlank(t) by {
        assert !IsJavaWhitespace(t[0]);
      }
      SplitShape(t);
      if |words| > n {
        if n == 0 {
          assert CapWords(t, n) == [];
        } else {
          var ws := words[..n];
          assert IsWordList(ws);
          SplitJoinRoundTrip(ws);
          JoinStartsWithFirst(ws);
          var j := Join(" ", ws);
          assert j[0] == words[0][0];
          assert words[0][0] in t;
          var k :| 0 <= k < |t| && t[k] == words[0][0];
          assert !IsJavaWhitespace(j[0]);
          assert !IsBlank(j);
        }
      }
    }
  }

  /** The word count reported for a résumé never exceeds the cap, and is the
      cleaned text's count when that is within the cap. */
  lemma ReportedWordCount(raw: string, isLNP: char -> bool, cap: nat)
    requires forall c :: IsJavaWhitespace(c) ==> !isLNP(c)
    ensures var t := CleanText(raw, isLNP);
            CountWords(CapWords(t, cap)) == Min(cap, CountWords(t))
  {
    var t := CleanText(raw, isLNP);
    CleanTextShape(raw, isLNP);
    forall i | 0 <= i < |t| && IsJavaWhitespace(t[i]) ensures t[i] == ' ' {
      assert !isLNP(t[i]);
    }
    CapThenCount(t, cap);
  }

  // ---- computeHash ---------------------------------------------------------

  newtype byte = x: int | 0 <= x < 256

  function HexDigit(d: int): (c: char)
    requires 0 <= d < 16
  {
    if d < 10 then (48 + d) as char else (87 + d) as char
  }

  /** Integer.toHexString on 0..255: lower-case hex without leading zeros. */
  function ToHexString(v: int): string
    requires 0 <= v < 256
  {
    if v < 16 then [HexDigit(v)] else [HexDigit(v / 16), HexDigit(v % 16)]
  }

  /** One byte's hex, padded with '0' when toHexString gives one digit. */
  function ByteHex(b: byte): (r: string)
    ensures r == [HexDigit(b as int / 16), HexDigit(b as int % 16)]
  {
    var hex := ToHexString(b as int);
    if |hex| == 1 then "0" + hex else hex
  }

  function HexOf(bytes: seq<byte>): (r: string)
    ensures |r| == 2 * |bytes|
  {
    if bytes == [] then [] else HexOf(bytes[..|bytes| - 1]) + ByteHex(bytes[|bytes| - 1])
  }

  /** The value of a lower-case hex digit. */
  function HexValue(c: char): int {
    if '0' <= c <= '9' then c as int - 48
    else if 'a' <= c <= 'f' then c as int - 87
    else 0
  }

  /** The byte two hex digits stand for. */
  function ByteOfDigits(hi: char, lo: char): byte {
    var v := 16 * HexValue(hi) + HexValue(lo);
    if 0 <= v < 256 then v as byte else 0
  }

  /** Reads two hex digits per byte back. */
  function DecodeHex(s: string): (r: seq<byte>)
    requires |s| % 2 == 0
    ensures |r| == |s| / 2
  {
    seq(|s| / 2, i requires 0 <= i < |s| / 2 => ByteOfDigits(s[2 * i], s[2 * i + 1]))
  }

  lemma HexDigitValue(d: int)
    requires 0 <= d < 16
    ensures HexValue(HexDigit(d)) == d
    ensures '0' <= HexDigit(d) <= '9' || 'a' <= HexDigit(d) <= 'f'
  {
  }

  /** Byte `i` sits at characters 2i and 2i+1 of the hex text. */
  lemma {:induction false} HexOfAt(bytes: seq<byte>, i: nat)
    requires i < |bytes|
    ensures HexOf(bytes)[2 * i] == HexDigit(bytes[i] as int / 16)
    ensures HexOf(bytes)[2 * i + 1] == HexDigit(bytes[i] as int % 16)
  {
    var p := bytes[..|bytes| - 1];
    assert HexOf(bytes) == HexOf(p) + ByteHex(bytes[|bytes| - 1]);
    if i < |p| {
      HexOfAt(p, i);
    }
  }

  /** A byte's two hex digits read back to the byte. */
  lemma ByteDigitsRoundTrip(b: byte)
    ensures ByteOfDigits(HexDigit(b as int / 16), HexDigit(b as int % 16)) == b
  {
    var hi, lo := b as int / 16, b as int % 16;
    HexDigitValue(hi);
    HexDigitValue(lo);
    assert 16 * hi + lo == b as int;
  }

  /** The hex text determines the bytes: reading it back gives the digest. */
  lemma HexRoundTrip(bytes: seq<byte>)
    ensures DecodeHex(HexOf(bytes)) == bytes
  {
    var s := HexOf(bytes);
    forall i | 0 <= i < |bytes| ensures DecodeHex(s)[i] == bytes[i] {
      HexOfAt(bytes, i);
      ByteDigitsRoundTrip(bytes[i]);
    }
  }

  /** The hex of a prefix is the prefix of the hex. */
  lemma {:induction false} HexOfPrefix(bytes: seq<byte>, k: nat)
    requires k <= |bytes|
    ensures HexOf(bytes)[..2 * k] == HexOf(bytes[..k])
    decreases |bytes|
  {
    if k < |bytes| {
      var p := bytes[..|bytes| - 1];
      HexOfPrefix(p, k);
      assert p[..k] == bytes[..k];
      assert HexOf(bytes)[..2 * |p|] == HexOf(p);
    } else {
      assert bytes[..k] == bytes;
    }
  }

  /** The fingerprint: the first 16 hex characters, or the exception that
      `substring(0, 16)` throws on a shorter text. */
  function FingerprintOf(digest: seq<byte>): Outcome<string> {
    var hex := HexOf(digest);
    if |hex| >= FingerprintLength then Returned(hex[..FingerprintLength])
    else Threw(JavaException(IndexOutOfBounds,
                             "begin 0, end 16, length " + IntToString(|hex|)))
  }

  /** A SHA-256 digest (32 bytes) gives 16 lower-case hex characters that
      encode its first 8 bytes. */
  lemma FingerprintOfSha256(digest: seq<byte>)
    requires |digest| == 32
    ensures FingerprintOf(digest).Returned?
    ensures var f := FingerprintOf(digest).value;
            |f| == FingerprintLength && DecodeHex(f) == digest[..8]
            && forall i :: 0 <= i < |f| ==> '0' <= f[i] <= '9' || 'a' <= f[i] <= 'f'
  {
    HexOfPrefix(digest, 8);
    HexRoundTrip(digest[..8]);
    var f := HexOf(digest[..8]);
    HexDigitsOnly(digest[..8]);
  }

  lemma {:induction false} HexDigitsOnly(bytes: seq<byte>)
    ensures forall i :: 0 <= i < |HexOf(bytes)| ==>
              '0' <= HexOf(bytes)[i] <= '9' || 'a' <= HexOf(bytes)[i] <= 'f'
  {
    if bytes != [] {
      var p := bytes[..|bytes| - 1];
      var b := bytes[|bytes| - 1];
      HexDigitsOnly(p);
      HexDigitValue(b as int / 16);
      HexDigitValue(b as int % 16);
      var s := HexOf(bytes);
      forall i | 0 <= i < |s| ensures '0' <= s[i] <= '9' || 'a' <= s[i] <= 'f' {
        if i < |HexOf(p)| {
          assert s[i] == HexOf(p)[i];
        }
      }
    }
  }

  /** computeHash, given the digest: hex-encode byte by byte, keep 16 characters. */
  method ComputeHash(digest: seq<byte>) returns (out: Outcome<string>)
    ensures out == FingerprintOf(digest)
  {
    var hex := "";
    var i := 0;
    while i < |digest|
      invariant 0 <= i <= |digest|
      invariant hex == HexOf(digest[..i])
    {
      assert digest[..i + 1][..i] == digest[..i];
      var h := ToHexString(digest[i] as int);
      if |h| == 1 {
        hex := hex + "0";
      }
      hex := hex + h;
      i := i + 1;
    }
    assert digest[..i] == digest;
    if |hex| < FingerprintLength {
      return Threw(JavaException(IndexOutOfBounds, "begin 0, end 16, length " + IntToString(|hex|)));
    }
    return Returned(hex[..FingerprintLength]);
  }
}
