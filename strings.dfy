/** The parts of java.lang.String and java.util.regex behaviour the ingestion
    code relies on, stated over Dafny strings. */
module Strings {

  /** `\s` in a Java regular expression: [ \t\n\x0B\f\r]. */
  predicate IsRegexSpace(c: char) {
    c == ' ' || c == '\t' || c == '\n' || c as int == 0x0B || c as int == 0x0C || c == '\r'
  }

  /** Character.isWhitespace: the regex spaces, the four ASCII separators
      U+001C..U+001F, and the Unicode space, line and paragraph separators
      except the three non-breaking ones (U+00A0, U+2007, U+202F). */
  predicate IsJavaWhitespace(c: char) {
    var n := c as int;
    IsRegexSpace(c) || (0x1C <= n <= 0x1F) || n == 0x1680
    || (0x2000 <= n <= 0x2006) || (0x2008 <= n <= 0x200A)
    || n == 0x2028 || n == 0x2029 || n == 0x205F || n == 0x3000
  }

  lemma RegexSpaceIsJavaWhitespace(c: char)
    requires IsRegexSpace(c)
    ensures IsJavaWhitespace(c) && c as int <= 0x20
  {
  }

  /** String.isBlank. */
  predicate IsBlank(s: string) {
    forall i :: 0 <= i < |s| ==> IsJavaWhitespace(s[i])
  }

  /** String.trim strips every leading and trailing character at or below U+0020. */
  predicate IsTrimmable(c: char) {
    c as int <= 0x20
  }

  function TrimStart(s: string): (r: string)
    ensures |r| <= |s|
    ensures r == [] || !IsTrimmable(r[0])
    decreases |s|
  {
    if s != [] && IsTrimmable(s[0]) then TrimStart(s[1..]) else s
  }

  function TrimEnd(s: string): (r: string)
    ensures |r| <= |s|
    ensures r == [] || !IsTrimmable(r[|r| - 1])
    decreases |s|
  {
    if s != [] && IsTrimmable(s[|s| - 1]) then TrimEnd(s[..|s| - 1]) else s
  }

  /** What TrimStart leaves is the end of the text. */
  lemma {:induction false} TrimStartSuffix(s: string)
    ensures TrimStart(s) == s[|s| - |TrimStart(s)|..]
    decreases |s|
  {
    if s != [] && IsTrimmable(s[0]) {
      TrimStartSuffix(s[1..]);
      assert s[1..][|s[1..]| - |TrimStart(s)|..] == s[|s| - |TrimStart(s)|..];
    }
  }

  /** What TrimEnd leaves is the start of the text. */
  lemma {:induction false} TrimEndPrefix(s: string)
    ensures TrimEnd(s) == s[..|TrimEnd(s)|]
    decreases |s|
  {
    if s != [] && IsTrimmable(s[|s| - 1]) {
      TrimEndPrefix(s[..|s| - 1]);
      assert s[..|s| - 1][..|TrimEnd(s)|] == s[..|TrimEnd(s)|];
    }
  }

  /** Nothing at either end that String.trim would strip. */
  predicate IsTrimmed(s: string) {
    s == [] || (!IsTrimmable(s[0]) && !IsTrimmable(s[|s| - 1]))
  }

  /** String.trim: nothing is left at either end to strip, and the result is
      no longer than the input. */
  function Trim(s: string): (r: string)
    ensures IsTrimmed(r)
    ensures |r| <= |s|
  {
    var a := TrimStart(s);
    var r := TrimEnd(a);
    TrimEndPrefix(a);
    if r == [] then r
    else
      assert r[0] == a[0];
      r
  }

  /** Every character of the trimmed text comes from the text. */
  lemma TrimChars(s: string)
    ensures forall i :: 0 <= i < |Trim(s)| ==> Trim(s)[i] in s
  {
    var a := TrimStart(s);
    var r := Trim(s);
    var k := |s| - |a|;
    TrimStartSuffix(s);
    TrimEndPrefix(a);
    assert r == TrimEnd(a) == a[..|r|] == s[k..][..|r|];
    forall i | 0 <= i < |r| ensures r[i] in s {
      assert r[i] == s[k + i];
    }
  }

  lemma {:induction false} TrimStartOfTrimmed(s: string)
    requires s == [] || !IsTrimmable(s[0])
    ensures TrimStart(s) == s
  {
  }

  lemma {:induction false} TrimEndOfTrimmed(s: string)
    requires s == [] || !IsTrimmable(s[|s| - 1])
    ensures TrimEnd(s) == s
  {
  }

  /** Trimming a trimmed string changes nothing, so trimming twice is trimming once. */
  lemma TrimOfTrimmed(s: string)
    requires IsTrimmed(s)
    ensures Trim(s) == s
  {
    TrimStartOfTrimmed(s);
    TrimEndOfTrimmed(s);
  }

  lemma TrimIdempotent(s: string)
    ensures Trim(Trim(s)) == Trim(s)
  {
    TrimOfTrimmed(Trim(s));
  }

  /** toLowerCase on the ASCII letters. */
  function LowerAscii(c: char): (r: char)
    ensures 'A' <= c <= 'Z' ==> r as int == c as int + 32
    ensures !('A' <= c <= 'Z') ==> r == c
  {
    if 'A' <= c <= 'Z' then (c as int + 32) as char else c
  }

  function LowerAsciiString(s: string): (r: string)
    ensures |r| == |s|
    ensures forall i :: 0 <= i < |s| ==> r[i] == LowerAscii(s[i])
  {
    seq(|s|, i requires 0 <= i < |s| => LowerAscii(s[i]))
  }

  predicate StartsWith(s: string, prefix: string) {
    |prefix| <= |s| && s[..|prefix|] == prefix
  }

  predicate EndsWith(s: string, suffix: string) {
    |suffix| <= |s| && s[|s| - |suffix|..] == suffix
  }

  function DigitChar(d: nat): (c: char)
    requires d < 10
    ensures '0' <= c <= '9' && c as int - '0' as int == d
  {
    (d + '0' as int) as char
  }

  /** Integer.toString for a non-negative value. */
  function NatToString(n: nat): (r: string)
    ensures |r| >= 1
    ensures forall i :: 0 <= i < |r| ==> '0' <= r[i] <= '9'
    decreases n
  {
    if n < 10 then [DigitChar(n)] else NatToString(n / 10) + [DigitChar(n % 10)]
  }

  /** Integer.toString. */
  function IntToString(i: int): string {
    if i < 0 then "-" + NatToString(-i) else NatToString(i)
  }

  /** The value of an ASCII digit; any other character counts as zero. */
  function DigitValue(c: char): (d: nat)
    ensures d < 10
  {
    if '0' <= c <= '9' then c as int - '0' as int else 0
  }

  /** The decimal value of a string of ASCII digits. */
  function DigitsValue(s: string): nat
    decreases |s|
  {
    if s == [] then 0 else DigitsValue(s[..|s| - 1]) * 10 + DigitValue(s[|s| - 1])
  }

  /** Reading back what NatToString writes gives the number again. */
  lemma {:induction false} NatToStringRoundTrip(n: nat)
    ensures DigitsValue(NatToString(n)) == n
    decreases n
  {
    if n >= 10 {
      NatToStringRoundTrip(n / 10);
      var s := NatToString(n);
      assert s[..|s| - 1] == NatToString(n / 10);
    }
  }

  /** String.join. */
  function Join(sep: string, parts: seq<string>): string
    decreases |parts|
  {
    if |parts| == 0 then ""
    else if |parts| == 1 then parts[0]
    else parts[0] + sep + Join(sep, parts[1..])
  }

  // ---------------------------------------------------------------------
  // String.split("\\s+")

  predicate NoRegexSpace(w: string) {
    forall i :: 0 <= i < |w| ==> !IsRegexSpace(w[i])
  }

  /** Drops a leading run of regex spaces. */
  function DropSpaces(s: string): (r: string)
    ensures |r| <= |s|
    ensures s != [] && IsRegexSpace(s[0]) ==> |r| < |s|
    ensures r == [] || !IsRegexSpace(r[0])
    decreases |s|
  {
    if s != [] && IsRegexSpace(s[0]) then DropSpaces(s[1..]) else s
  }

  /** What is left after the spaces is the end of the text. */
  lemma {:induction false} DropSpacesSuffix(s: string)
    ensures DropSpaces(s) == s[|s| - |DropSpaces(s)|..]
    decreases |s|
  {
    if s != [] && IsRegexSpace(s[0]) {
      DropSpacesSuffix(s[1..]);
      assert s[1..][|s[1..]| - |DropSpaces(s)|..] == s[|s| - |DropSpaces(s)|..];
    }
  }

  /** Every piece between maximal runs of regex spaces, including an empty first
      piece when the text starts with a space and an empty last piece when it
      ends with one. */
  function Pieces(s: string): (r: seq<string>)
    ensures |r| >= 1
    decreases |s|
  {
    if s == [] then [[]]
    else if IsRegexSpace(s[0]) then [[]] + Pieces(DropSpaces(s))
    else
      var p := Pieces(s[1..]);
      [[s[0]] + p[0]] + p[1..]
  }

  /** Java's split drops trailing empty strings. */
  function DropTrailingEmpty(ps: seq<string>): (r: seq<string>)
    ensures |r| <= |ps| && r == ps[..|r|]
    ensures r == [] || r[|r| - 1] != []
    ensures forall i :: |r| <= i < |ps| ==> ps[i] == []
    decreases |ps|
  {
    if ps != [] && ps[|ps| - 1] == [] then DropTrailingEmpty(ps[..|ps| - 1]) else ps
  }

  /** String.split("\\s+"): the empty string splits to [""] (no match), any
      other text to its pieces without the trailing empty ones. */
  function SplitOnSpaceRuns(s: string): seq<string> {
    if s == [] then [[]] else DropTrailingEmpty(Pieces(s))
  }

  /** No piece contains a space. */
  lemma {:induction false} PiecesHaveNoSpace(s: string)
    ensures forall i :: 0 <= i < |Pieces(s)| ==> NoRegexSpace(Pieces(s)[i])
    decreases |s|
  {
    if s == [] {
    } else if IsRegexSpace(s[0]) {
      var d := DropSpaces(s);
      PiecesHaveNoSpace(d);
      var p := Pieces(d);
      assert Pieces(s) == [[]] + p;
      forall i | 0 < i < |Pieces(s)| ensures NoRegexSpace(Pieces(s)[i]) {
        assert Pieces(s)[i] == p[i - 1];
      }
    } else {
      PiecesHaveNoSpace(s[1..]);
      var p := Pieces(s[1..]);
      var first := [s[0]] + p[0];
      assert NoRegexSpace(first) by {
        forall j | 0 <= j < |first| ensures !IsRegexSpace(first[j]) {
          if j > 0 {
            assert first[j] == p[0][j - 1];
          }
        }
      }
      assert Pieces(s) == [first] + p[1..];
      forall i | 0 < i < |Pieces(s)| ensures NoRegexSpace(Pieces(s)[i]) {
        assert Pieces(s)[i] == p[i];
      }
    }
  }

  /** Only the first piece (when the text starts with a space) and the last
      (when it ends with one) can be empty. */
  lemma {:induction false} PiecesNonEmpty(s: string)
    ensures forall i :: 0 < i < |Pieces(s)| - 1 ==> Pieces(s)[i] != []
    ensures s != [] && !IsRegexSpace(s[0]) ==> Pieces(s)[0] != []
    decreases |s|
  {
    if s == [] {
    } else if IsRegexSpace(s[0]) {
      var d := DropSpaces(s);
      PiecesNonEmpty(d);
      assert Pieces(s) == [[]] + Pieces(d);
    } else {
      PiecesNonEmpty(s[1..]);
      var p := Pieces(s[1..]);
      assert Pieces(s) == [[s[0]] + p[0]] + p[1..];
    }
  }

  /** Every piece is made of the text's characters. */
  lemma {:induction false} PiecesUseTextChars(s: string)
    ensures forall i, j :: 0 <= i < |Pieces(s)| && 0 <= j < |Pieces(s)[i]| ==> Pieces(s)[i][j] in s
    decreases |s|
  {
    if s == [] {
    } else if IsRegexSpace(s[0]) {
      var d := DropSpaces(s);
      PiecesUseTextChars(d);
      DropSpacesSuffix(s);
      var p := Pieces(d);
      assert Pieces(s) == [[]] + p;
      assert forall c :: c in d ==> c in s;
    } else {
      var t := s[1..];
      PiecesUseTextChars(t);
      var p := Pieces(t);
      assert Pieces(s) == [[s[0]] + p[0]] + p[1..];
      assert forall c :: c in t ==> c in s;
      forall j | 0 <= j < |Pieces(s)[0]|
        ensures Pieces(s)[0][j] in s
      {
        if j > 0 {
          assert Pieces(s)[0][j] == p[0][j - 1];
        }
      }
    }
  }

  /** No piece contains a space, every piece is made of the text's characters,
      and only the first (when the text starts with a space) and the last (when
      it ends with one) can be empty. */
  lemma PiecesShape(s: string)
    ensures forall i :: 0 <= i < |Pieces(s)| ==> NoRegexSpace(Pieces(s)[i])
    ensures forall i, j :: 0 <= i < |Pieces(s)| && 0 <= j < |Pieces(s)[i]| ==> Pieces(s)[i][j] in s
    ensures forall i :: 0 < i < |Pieces(s)| - 1 ==> Pieces(s)[i] != []
    ensures s != [] && !IsRegexSpace(s[0]) ==> Pieces(s)[0] != []
  {
    PiecesHaveNoSpace(s);
    PiecesUseTextChars(s);
    PiecesNonEmpty(s);
  }

  /** A text that does not start with a space splits into non-empty words
      without spaces, each made of the text's characters. */
  lemma SplitShape(s: string)
    requires s != [] && !IsRegexSpace(s[0])
    ensures |SplitOnSpaceRuns(s)| >= 1
    ensures forall i :: 0 <= i < |SplitOnSpaceRuns(s)| ==>
      SplitOnSpaceRuns(s)[i] != [] && NoRegexSpace(SplitOnSpaceRuns(s)[i])
    ensures forall i, j :: 0 <= i < |SplitOnSpaceRuns(s)| && 0 <= j < |SplitOnSpaceRuns(s)[i]| ==>
      SplitOnSpaceRuns(s)[i][j] in s
  {
    PiecesShape(s);
    var p := Pieces(s);
    var r := DropTrailingEmpty(p);
    assert p[0] != [];
  }

  /** A non-space character in front of a text joins its first piece. */
  lemma PiecesCons(c: char, t: string)
    requires !IsRegexSpace(c)
    ensures Pieces([c] + t) == [[c] + Pieces(t)[0]] + Pieces(t)[1..]
  {
    assert ([c] + t)[0] == c && ([c] + t)[1..] == t;
  }

  /** Words without spaces, glued in front of a text, extend its first piece. */
  lemma {:induction false} PiecesOfWordPrefix(w: string, t: string)
    requires NoRegexSpace(w)
    ensures Pieces(w + t) == [w + Pieces(t)[0]] + Pieces(t)[1..]
    decreases |w|
  {
    if w != [] {
      assert NoRegexSpace(w[1..]) by {
        forall i | 0 <= i < |w[1..]| ensures !IsRegexSpace(w[1..][i]) {
          assert w[1..][i] == w[i + 1];
        }
      }
      var u := w[1..] + t;
      PiecesOfWordPrefix(w[1..], t);
      var q := Pieces(u);
      assert q[0] == w[1..] + Pieces(t)[0] && q[1..] == Pieces(t)[1..];
      assert w + t == [w[0]] + u;
      PiecesCons(w[0], u);
      assert Pieces(w + t) == [[w[0]] + q[0]] + q[1..];
      assert [w[0]] + q[0] == w + Pieces(t)[0];
    } else {
      assert w + t == t;
      var p := Pieces(t);
      assert w + p[0] == p[0];
      assert [p[0]] + p[1..] == p;
    }
  }

  predicate IsWordList(ws: seq<string>) {
    forall i :: 0 <= i < |ws| ==> ws[i] != [] && NoRegexSpace(ws[i])
  }

  /** Splitting words joined by single spaces gives the words back. */
  lemma {:induction false} SplitJoinRoundTrip(ws: seq<string>)
    requires |ws| >= 1 && IsWordList(ws)
    ensures Pieces(Join(" ", ws)) == ws
    ensures SplitOnSpaceRuns(Join(" ", ws)) == ws
    decreases |ws|
  {
    if |ws| == 1 {
      PiecesOfWordPrefix(ws[0], "");
      assert ws[0] + "" == ws[0];
    } else {
      var rest := Join(" ", ws[1..]);
      SplitJoinRoundTrip(ws[1..]);
      assert rest != [] && !IsRegexSpace(rest[0]) by {
        JoinStartsWithFirst(ws[1..]);
      }
      assert Join(" ", ws) == ws[0] + (" " + rest);
      PiecesOfWordPrefix(ws[0], " " + rest);
      assert DropSpaces(" " + rest) == rest;
      assert Pieces(" " + rest) == [[]] + ws[1..];
      assert ws[0] + [] == ws[0];
      assert [ws[0]] + ws[1..] == ws;
    }
    JoinStartsWithFirst(ws);
  }

  /** A join of words starts with the first word's first character. */
  lemma {:induction false} JoinStartsWithFirst(ws: seq<string>)
    requires |ws| >= 1 && ws[0] != []
    ensures Join(" ", ws) != [] && Join(" ", ws)[0] == ws[0][0]
  {
  }
}
