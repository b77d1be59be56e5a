/**
 * Transcript cleaning, length validation, the idempotency hash, word
 * counting, display formatting and truncation of src/lib/transcript-utils.ts.
 */
module TranscriptUtils {
  import opened JsText
  import opened Wrappers

  const MIN_TRANSCRIPT_LENGTH: nat := 20
  const MAX_TRANSCRIPT_LENGTH: nat := 100000

  /** German hesitations, removed in this order. */
  const GERMAN_FILLERS: seq<string> :=
    ["ähm", "äh", "ehm", "eh", "hm", "hmm", "uh", "uhm", "also", "ja also", "naja"]

  // ---------------------------------------------------------------------------
  // Filler removal: `cleaned.replace(new RegExp(`\\b${filler}\\b`, "gi"), "")`
  // ---------------------------------------------------------------------------

  /**
   * Upper case as the case-insensitive comparison of a regular expression
   * without the `u` flag computes it, for the characters that occur in the
   * filler list (ASCII letters, the space and "ä").
   */
  function UpperOf(c: char): char {
    if 'a' <= c <= 'z' then (c as int - 32) as char
    else if c == 'ä' then 'Ä'
    else c
  }

  /** Text character `c` matches pattern character `f` under the `i` flag. */
  predicate FoldsTo(c: char, f: char) {
    c == f || c == UpperOf(f)
  }

  predicate WordAt(s: string, p: int) {
    0 <= p < |s| && IsWordChar(s[p])
  }

  /** The assertion `\b` at position `p`: an ASCII word character on exactly one side. */
  predicate BoundaryAt(s: string, p: int) {
    WordAt(s, p - 1) != WordAt(s, p)
  }

  /** The pattern `\bf\b` matches `s` at position `i`. */
  predicate MatchesAt(s: string, f: string, i: nat) {
    && i + |f| <= |s|
    && BoundaryAt(s, i)
    && BoundaryAt(s, i + |f|)
    && forall k :: 0 <= k < |f| ==> FoldsTo(s[i + k], f[k])
  }

  /** A global replace by "", scanning from index `i`: a match is dropped and the scan resumes after it. */
  function RemoveFillerFrom(s: string, f: string, i: nat): (r: string)
    requires i <= |s|
    ensures |r| <= |s| - i
    decreases |s| - i
  {
    if i == |s| then []
    else if f != [] && MatchesAt(s, f, i) then RemoveFillerFrom(s, f, i + |f|)
    else [s[i]] + RemoveFillerFrom(s, f, i + 1)
  }

  function RemoveFiller(s: string, f: string): (r: string)
    ensures |r| <= |s|
  {
    RemoveFillerFrom(s, f, 0)
  }

  /** The fillers of `fs` removed one after the other, first to last. */
  function RemoveFillers(s: string, fs: seq<string>): (r: string)
    ensures |r| <= |s|
  {
    if fs == [] then s else RemoveFiller(RemoveFillers(s, fs[..|fs| - 1]), fs[|fs| - 1])
  }

  // ---------------------------------------------------------------------------
  // White space: `cleaned.replace(/\s+/g, " ")`
  // ---------------------------------------------------------------------------

  /** Every maximal run of white space becomes one plain space. */
  function CollapseSpaces(s: string): (r: string)
    ensures |r| <= |s|
    ensures s != [] ==> r != [] && r[0] == (if IsSpace(s[0]) then ' ' else s[0])
    decreases |s|
  {
    if s == [] then []
    else if IsSpace(s[0]) then
      assert TrimStart(s) == TrimStart(s[1..]);
      [' '] + CollapseSpaces(TrimStart(s[1..]))
    else [s[0]] + CollapseSpaces(s[1..])
  }

  lemma {:induction false} CollapseSpacesShape(s: string)
    ensures NoDoubleSpace(CollapseSpaces(s)) && OnlyPlainSpaces(CollapseSpaces(s))
    decreases |s|
  {
    if s != [] {
      var rest := if IsSpace(s[0]) then TrimStart(s[1..]) else s[1..];
      CollapseSpacesShape(rest);
      var r := CollapseSpaces(s);
      ConsNoDoubleSpace(r[0], CollapseSpaces(rest));
      ConsOnlyPlainSpaces(r[0], CollapseSpaces(rest));
    }
  }

  lemma {:induction false} CollapseSpacesKeepsText(s: string)
    ensures StripSpaces(CollapseSpaces(s)) == StripSpaces(s)
    decreases |s|
  {
    if s != [] {
      if IsSpace(s[0]) {
        var t := TrimStart(s[1..]);
        CollapseSpacesKeepsText(t);
        var front := s[..|s| - |t|];
        assert s == front + t;
        assert AllSpace(front);
        StripSpacesSandwich(front, t, []);
        assert t + [] == t;
        StripSpacesConcat([' '], CollapseSpaces(t));
      } else {
        CollapseSpacesKeepsText(s[1..]);
        StripSpacesConcat([s[0]], CollapseSpaces(s[1..]));
        assert s == [s[0]] + s[1..];
        StripSpacesConcat([s[0]], s[1..]);
      }
    }
  }

  // ---------------------------------------------------------------------------
  // Repeated punctuation: `cleaned.replace(/([.!?])\s*\1+/g, "$1")`
  // ---------------------------------------------------------------------------

  predicate IsSentenceEnd(c: char) {
    c == '.' || c == '!' || c == '?'
  }

  /** Length of the run of `c` at the start of `s`. */
  function RunOf(s: string, c: char): (k: nat)
    ensures k <= |s|
    ensures forall j :: 0 <= j < k ==> s[j] == c
    ensures k < |s| ==> s[k] != c
  {
    if s != [] && s[0] == c then 1 + RunOf(s[1..], c) else 0
  }

  /**
   * Length of the match of `([.!?])\s*\1+` at the start of `s`, or 0: a
   * sentence end, the white space after it, then one or more repetitions of
   * the same character (every quantifier takes as much as it can).
   */
  function RepeatMatch(s: string): (m: nat)
    ensures m <= |s|
    ensures m > 0 ==> m >= 2 && IsSentenceEnd(s[0]) && s[m - 1] == s[0]
    ensures m > 0 && m < |s| ==> s[m] != s[0]
  {
    if s == [] || !IsSentenceEnd(s[0]) then 0
    else
      var after := TrimStart(s[1..]);
      var w := |s| - 1 - |after|;
      var k := RunOf(after, s[0]);
      assert forall j :: 0 <= j < |after| ==> after[j] == s[1 + w + j];
      if k == 0 then 0 else 1 + w + k
  }

  /** Every match is replaced by its first character. */
  function CollapseRepeats(s: string): (r: string)
    ensures |r| <= |s|
    ensures s != [] ==> r != [] && r[0] == s[0] && r[|r| - 1] == s[|s| - 1]
    decreases |s|
  {
    if s == [] then []
    else
      var m := RepeatMatch(s);
      [s[0]] + CollapseRepeats(s[if m > 0 then m else 1..])
  }

  lemma {:induction false} CollapseRepeatsShape(s: string)
    requires NoDoubleSpace(s) && OnlyPlainSpaces(s)
    ensures NoDoubleSpace(CollapseRepeats(s)) && OnlyPlainSpaces(CollapseRepeats(s))
    decreases |s|
  {
    if s != [] {
      var m := RepeatMatch(s);
      var j := if m > 0 then m else 1;
      SliceNoDoubleSpace(s, j, |s|);
      SliceOnlyPlainSpaces(s, j, |s|);
      assert s[j..|s|] == s[j..];
      CollapseRepeatsShape(s[j..]);
      var tail := CollapseRepeats(s[j..]);
      assert tail != [] ==> tail[0] == s[j];
      ConsNoDoubleSpace(s[0], tail);
      ConsOnlyPlainSpaces(s[0], tail);
    }
  }

  // ---------------------------------------------------------------------------
  // cleanTranscript
  // ---------------------------------------------------------------------------

  /** What `cleanTranscript` returns. */
  function Clean(text: string): string {
    if text == "" then ""
    else CollapseRepeats(Trim(CollapseSpaces(RemoveFillers(text, GERMAN_FILLERS))))
  }

  /** `cleanTranscript`: the filler loop, then the three whole-text replacements. */
  method CleanTranscript(text: string) returns (cleaned: string)
    ensures cleaned == Clean(text)
    ensures text == "" ==> cleaned == ""
  {
    if text == "" {
      return "";
    }
    cleaned := text;
    for k := 0 to |GERMAN_FILLERS|
      invariant cleaned == RemoveFillers(text, GERMAN_FILLERS[..k])
    {
      assert GERMAN_FILLERS[..k + 1][..k] == GERMAN_FILLERS[..k];
      cleaned := RemoveFiller(cleaned, GERMAN_FILLERS[k]);
    }
    assert GERMAN_FILLERS[..|GERMAN_FILLERS|] == GERMAN_FILLERS;
    cleaned := CollapseSpaces(cleaned);
    cleaned := Trim(cleaned);
    cleaned := CollapseRepeats(cleaned);
  }

  /**
   * A cleaned transcript has no white space at either end, never two
   * white-space characters in a row, only plain spaces, and is never longer
   * than the raw text.
   */
  lemma CleanShape(text: string)
    ensures NoEdgeSpace(Clean(text))
    ensures NoDoubleSpace(Clean(text))
    ensures OnlyPlainSpaces(Clean(text))
    ensures |Clean(text)| <= |text|
  {
    if text != "" {
      var collapsed := CollapseSpaces(RemoveFillers(text, GERMAN_FILLERS));
      CollapseSpacesShape(RemoveFillers(text, GERMAN_FILLERS));
      var t := Trim(collapsed);
      var a := LeadingSpaces(collapsed);
      SliceNoDoubleSpace(collapsed, a, a + |t|);
      SliceOnlyPlainSpaces(collapsed, a, a + |t|);
      CollapseRepeatsShape(t);
    }
  }

  // ---------------------------------------------------------------------------
  // validateTranscriptLength
  // ---------------------------------------------------------------------------

  datatype LengthError = Empty | TooShort(length: nat) | TooLong(length: nat)

  datatype LengthCheck = LengthCheck(valid: bool, error: Option<LengthError>, length: nat)

  /** Measures the trimmed text against the band 20..100000. */
  function ValidateTranscriptLength(text: string): (r: LengthCheck)
    ensures r.length == |Trim(text)|
    ensures r.valid <==> MIN_TRANSCRIPT_LENGTH <= |Trim(text)| <= MAX_TRANSCRIPT_LENGTH
    ensures r.valid <==> r.error == None
    ensures |Trim(text)| == 0 ==> r.error == Some(Empty)
    ensures 0 < |Trim(text)| < MIN_TRANSCRIPT_LENGTH ==> r.error == Some(TooShort(|Trim(text)|))
    ensures |Trim(text)| > MAX_TRANSCRIPT_LENGTH ==> r.error == Some(TooLong(|Trim(text)|))
  {
    var length := |Trim(text)|;
    if length == 0 then LengthCheck(false, Some(Empty), 0)
    else if length < MIN_TRANSCRIPT_LENGTH then LengthCheck(false, Some(TooShort(length)), length)
    else if length > MAX_TRANSCRIPT_LENGTH then LengthCheck(false, Some(TooLong(length)), length)
    else LengthCheck(true, None, length)
  }

  /** A cleaned text is its own trim, so validating it measures exactly its length. */
  lemma ValidateCleanedMeasuresLength(text: string)
    ensures ValidateTranscriptLength(Clean(text)).length == |Clean(text)|
    ensures ValidateTranscriptLength(Clean(text)).valid <==>
              MIN_TRANSCRIPT_LENGTH <= |Clean(text)| <= MAX_TRANSCRIPT_LENGTH
  {
    CleanShape(text);
    TrimOfTrimmed(Clean(text));
  }

  // ---------------------------------------------------------------------------
  // hasMeaningfulContent
  // ---------------------------------------------------------------------------

  /** `text.replace(/[^\w\s]/g, "")`: keeps word characters and white space. */
  function KeepWordsAndSpaces(s: string): (r: string)
    ensures |r| <= |s|
    ensures forall i :: 0 <= i < |r| ==> IsWordChar(r[i]) || IsSpace(r[i])
  {
    if s == [] then []
    else (if IsWordChar(s[0]) || IsSpace(s[0]) then [s[0]] else []) + KeepWordsAndSpaces(s[1..])
  }

  lemma {:induction false} KeepWordsAndSpacesConcat(a: string, b: string)
    ensures KeepWordsAndSpaces(a + b) == KeepWordsAndSpaces(a) + KeepWordsAndSpaces(b)
    decreases |a|
  {
    if a == [] {
      assert a + b == b;
    } else {
      assert (a + b)[0] == a[0] && (a + b)[1..] == a[1..] + b;
      KeepWordsAndSpacesConcat(a[1..], b);
    }
  }

  predicate HasMeaningfulContent(text: string) {
    |Trim(KeepWordsAndSpaces(text))| >= MIN_TRANSCRIPT_LENGTH
  }

  /**
   * Punctuation does not count: inserting a character that is neither a word
   * character nor white space never changes the verdict; and a meaningful
   * text has at least 20 characters and starts its content with a word character.
   */
  lemma MeaningfulContentIgnoresPunctuation(a: string, p: char, b: string)
    requires !IsWordChar(p) && !IsSpace(p)
    ensures HasMeaningfulContent(a + [p] + b) == HasMeaningfulContent(a + b)
  {
    KeepWordsAndSpacesConcat(a + [p], b);
    KeepWordsAndSpacesConcat(a, [p]);
    KeepWordsAndSpacesConcat(a, b);
    assert KeepWordsAndSpaces([p]) == [];
    assert KeepWordsAndSpaces(a) + [] == KeepWordsAndSpaces(a);
  }

  lemma MeaningfulContentBounds(text: string)
    requires HasMeaningfulContent(text)
    ensures |text| >= MIN_TRANSCRIPT_LENGTH
    ensures exists i :: 0 <= i < |text| && IsWordChar(text[i])
  {
    var kept := KeepWordsAndSpaces(text);
    var t := Trim(kept);
    assert IsWordChar(t[0]) by {
      assert t[0] == kept[LeadingSpaces(kept)];
    }
    KeptCharOccurs(text, LeadingSpaces(kept));
  }

  lemma {:induction false} KeptCharOccurs(s: string, j: nat)
    requires j < |KeepWordsAndSpaces(s)|
    ensures exists i :: 0 <= i < |s| && s[i] == KeepWordsAndSpaces(s)[j]
    decreases |s|
  {
    var head := if IsWordChar(s[0]) || IsSpace(s[0]) then [s[0]] else [];
    if j < |head| {
      assert s[0] == KeepWordsAndSpaces(s)[j];
    } else {
      KeptCharOccurs(s[1..], j - |head|);
      var i :| 0 <= i < |s[1..]| && s[1..][i] == KeepWordsAndSpaces(s[1..])[j - |head|];
      assert s[i + 1] == KeepWordsAndSpaces(s)[j];
    }
  }

  // ---------------------------------------------------------------------------
  // estimateWordCount
  // ---------------------------------------------------------------------------

  /** Length of the white-space-free prefix. */
  function NonSpacePrefix(s: string): (w: nat)
    ensures w <= |s|
    ensures forall j :: 0 <= j < w ==> !IsSpace(s[j])
    ensures w < |s| ==> IsSpace(s[w])
  {
    if s != [] && !IsSpace(s[0]) then 1 + NonSpacePrefix(s[1..]) else 0
  }

  /** Length of the white-space prefix. */
  function SpacePrefix(s: string): (g: nat)
    ensures g <= |s|
    ensures forall j :: 0 <= j < g ==> IsSpace(s[j])
    ensures g < |s| ==> !IsSpace(s[g])
  {
    if s != [] && IsSpace(s[0]) then 1 + SpacePrefix(s[1..]) else 0
  }

  /** Splitting on `\s+`: the pieces between maximal white-space runs. */
  function SplitOnSpaces(s: string): (pieces: seq<string>)
    ensures |pieces| >= 1
    decreases |s|
  {
    var w := NonSpacePrefix(s);
    if w == |s| then [s]
    else [s[..w]] + SplitOnSpaces(s[w + SpacePrefix(s[w..])..])
  }

  /** `.filter((word) => word.length > 0)`. */
  function NonEmptyPieces(pieces: seq<string>): (r: seq<string>)
    ensures |r| <= |pieces|
  {
    if pieces == [] then []
    else (if pieces[0] != [] then [pieces[0]] else []) + NonEmptyPieces(pieces[1..])
  }

  function EstimateWordCount(text: string): nat {
    var trimmed := Trim(text);
    if trimmed == "" then 0 else |NonEmptyPieces(SplitOnSpaces(trimmed))|
  }

  /** Reference count: the characters that end a word (a non-space followed by white space or the end). */
  function WordEnds(s: string): nat {
    if s == [] then 0
    else (if !IsSpace(s[0]) && (|s| == 1 || IsSpace(s[1])) then 1 else 0) + WordEnds(s[1..])
  }

  lemma {:induction false} WordEndsAfterSpaces(a: string, v: string)
    requires AllSpace(a)
    ensures WordEnds(a + v) == WordEnds(v)
    decreases |a|
  {
    if a != [] {
      assert (a + v)[1..] == a[1..] + v;
      WordEndsAfterSpaces(a[1..], v);
    } else {
      assert a + v == v;
    }
  }

  lemma {:induction false} WordEndsBeforeSpaces(t: string, b: string)
    requires AllSpace(b)
    ensures WordEnds(t + b) == WordEnds(t)
    decreases |t|
  {
    if t == [] {
      assert t + b == b;
      WordEndsAfterSpaces(b, []);
      assert b + [] == b;
    } else {
      assert (t + b)[1..] == t[1..] + b;
      WordEndsBeforeSpaces(t[1..], b);
      if |t| == 1 {
        assert t[1..] == [];
        if b != [] { assert (t + b)[1] == b[0]; }
      } else {
        assert (t + b)[1] == t[1];
      }
    }
  }

  lemma {:induction false} WordEndsOfWord(u: string, v: string)
    requires u != [] && forall j :: 0 <= j < |u| ==> !IsSpace(u[j])
    requires v == [] || IsSpace(v[0])
    ensures WordEnds(u + v) == 1 + WordEnds(v)
    decreases |u|
  {
    assert (u + v)[1..] == u[1..] + v;
    if |u| == 1 {
      assert u[1..] + v == v;
      if v != [] { assert (u + v)[1] == v[0]; }
    } else {
      assert (u + v)[1] == u[1];
      WordEndsOfWord(u[1..], v);
    }
  }

  /** A white-space run between two words contributes no word end. */
  lemma WordEndsSkipGap(s: string, w: nat)
    requires w <= |s|
    ensures WordEnds(s[w..]) == WordEnds(s[w + SpacePrefix(s[w..])..])
  {
    var g := SpacePrefix(s[w..]);
    assert s[w..] == s[w..][..g] + s[w + g..];
    WordEndsAfterSpaces(s[w..][..g], s[w + g..]);
  }

  lemma NonEmptyPiecesCons(p: string, rest: seq<string>)
    ensures |NonEmptyPieces([p] + rest)| == (if p != [] then 1 else 0) + |NonEmptyPieces(rest)|
  {
    assert ([p] + rest)[1..] == rest;
  }

  lemma SplitCountsOneWord(s: string)
    requires NonSpacePrefix(s) == |s|
    ensures |NonEmptyPieces(SplitOnSpaces(s))| == WordEnds(s)
  {
    assert SplitOnSpaces(s) == [s] + [];
    NonEmptyPiecesCons(s, []);
    if s != [] {
      assert s + [] == s;
      WordEndsOfWord(s, []);
    }
  }

  /** The word ends of a text: one for its leading word, if any, then those after it. */
  lemma WordEndsFirstWord(s: string)
    requires NonSpacePrefix(s) < |s|
    ensures WordEnds(s) == (if NonSpacePrefix(s) > 0 then 1 else 0) + WordEnds(s[NonSpacePrefix(s)..])
  {
    var w := NonSpacePrefix(s);
    if w > 0 {
      assert s == s[..w] + s[w..];
      WordEndsOfWord(s[..w], s[w..]);
    }
  }

  lemma {:induction false} SplitCountsWordEnds(s: string)
    ensures |NonEmptyPieces(SplitOnSpaces(s))| == WordEnds(s)
    decreases |s|
  {
    var w := NonSpacePrefix(s);
    if w == |s| {
      SplitCountsOneWord(s);
    } else {
      var rest := s[w + SpacePrefix(s[w..])..];
      assert SplitOnSpaces(s) == [s[..w]] + SplitOnSpaces(rest);
      SplitCountsWordEnds(rest);
      WordEndsSkipGap(s, w);
      WordEndsFirstWord(s);
      NonEmptyPiecesCons(s[..w], SplitOnSpaces(rest));
    }
  }

  lemma {:induction false} WordEndsZeroIffAllSpace(s: string)
    ensures WordEnds(s) == 0 <==> AllSpace(s)
    decreases |s|
  {
    if s != [] {
      WordEndsZeroIffAllSpace(s[1..]);
      if !IsSpace(s[0]) && |s| > 1 && !IsSpace(s[1]) {
        assert !AllSpace(s[1..]) by { assert !IsSpace(s[1..][0]); }
      }
    }
  }

  lemma WordEndsTrim(text: string)
    ensures WordEnds(Trim(text)) == WordEnds(text)
  {
    var front, back := TrimSplit(text);
    WordEndsAfterSpaces(front, Trim(text) + back);
    WordEndsBeforeSpaces(Trim(text), back);
  }

  /** The estimate is the number of white-space-separated words, and 0 exactly for blank text. */
  lemma EstimateWordCountCountsWords(text: string)
    ensures EstimateWordCount(text) == WordEnds(text)
    ensures EstimateWordCount(text) == 0 <==> AllSpace(text)
  {
    WordEndsTrim(text);
    SplitCountsWordEnds(Trim(text));
    WordEndsZeroIffAllSpace(text);
  }

  // ---------------------------------------------------------------------------
  // hashTranscript
  // ---------------------------------------------------------------------------

  const TWO_32: int := 0x1_0000_0000
  const TWO_31: int := 0x8000_0000

  /** ToInt32: wraps an integer to the signed 32-bit range. */
  function Int32(x: int): (r: int)
    ensures -TWO_31 <= r < TWO_31
    ensures (x - r) % TWO_32 == 0
  {
    (x + TWO_31) % TWO_32 - TWO_31
  }

  lemma Int32Congruent(x: int, y: int, k: int)
    requires x == y + k * TWO_32
    ensures Int32(x) == Int32(y)
  {
    assert (x + TWO_31) % TWO_32 == (y + TWO_31) % TWO_32;
  }

  /** One step of the hash: 31 * h + code unit, wrapped to 32 bits. */
  function HashStep(h: int, c: char): int {
    Int32(31 * h + c as int)
  }

  /** The hash of a text: the step applied left to right, from 0. */
  function HashOf(s: string): (h: int)
    ensures -TWO_31 <= h < TWO_31
  {
    if s == [] then 0 else HashStep(HashOf(s[..|s| - 1]), s[|s| - 1])
  }

  /** `(hash << 5) - hash + char` then `hash & hash` computes the 32-bit-wrapped 31 * hash + char. */
  lemma ShiftSubtractStep(h: int, c: char)
    requires -TWO_31 <= h < TWO_31
    ensures Int32(Int32(h * 32) - h + c as int) == HashStep(h, c)
  {
    var k := (h * 32 - Int32(h * 32)) / TWO_32;
    assert h * 32 - Int32(h * 32) == k * TWO_32;
    Int32Congruent(31 * h + c as int, Int32(h * 32) - h + c as int, k);
  }

  function DigitChar(d: nat): char
    requires d < 36
  {
    if d < 10 then ('0' as int + d) as char else ('a' as int + d - 10) as char
  }

  function DigitValue(c: char): int {
    if '0' <= c <= '9' then c as int - '0' as int
    else if 'a' <= c <= 'z' then c as int - 'a' as int + 10
    else -1
  }

  /** The base-36 digits of `n`, most significant first, without leading zeros. */
  function Digits36(n: nat): (r: string)
    ensures r != [] && forall i :: 0 <= i < |r| ==> r[i] != '-'
    decreases n
  {
    if n < 36 then [DigitChar(n)] else Digits36(n / 36) + [DigitChar(n % 36)]
  }

  function ParseDigits36(s: string): int
    decreases |s|
  {
    if s == [] then 0 else ParseDigits36(s[..|s| - 1]) * 36 + DigitValue(s[|s| - 1])
  }

  /** `Number.prototype.toString(36)` on an integer. */
  function Base36(x: int): (r: string)
    ensures r != []
  {
    if x < 0 then "-" + Digits36(-x) else Digits36(x)
  }

  lemma {:induction false} ParseDigits36RoundTrip(n: nat)
    ensures ParseDigits36(Digits36(n)) == n
    decreases n
  {
    if n < 36 {
      assert Digits36(n)[..0] == [];
    } else {
      ParseDigits36RoundTrip(n / 36);
      var d := Digits36(n);
      assert d[..|d| - 1] == Digits36(n / 36);
    }
  }

  /** The rendering starts with a minus sign exactly for negative numbers. */
  lemma Base36Sign(x: int)
    ensures Base36(x)[0] == '-' <==> x < 0
  {
  }

  lemma Digits36Injective(m: nat, n: nat)
    ensures Digits36(m) == Digits36(n) ==> m == n
  {
    ParseDigits36RoundTrip(m);
    ParseDigits36RoundTrip(n);
  }

  /** Distinct hashes render as distinct strings, so comparing the strings compares the hashes. */
  lemma Base36Injective(x: int, y: int)
    ensures Base36(x) == Base36(y) <==> x == y
  {
    if Base36(x) == Base36(y) {
      Base36Sign(x);
      Base36Sign(y);
      if x < 0 {
        assert Base36(x)[1..] == Digits36(-x);
        assert Base36(y)[1..] == Digits36(-y);
        Digits36Injective(-x, -y);
      } else {
        Digits36Injective(x, y);
      }
    }
  }

  /** What `hashTranscript` returns: the base-36 hash of the cleaned text. */
  function TranscriptHash(text: string): string {
    Base36(HashOf(Clean(text)))
  }

  /** The hashing loop of `hashTranscript` over the code units of `s`. */
  method HashCodeUnits(s: string) returns (hash: int)
    ensures hash == HashOf(s)
  {
    hash := 0;
    for i := 0 to |s|
      invariant hash == HashOf(s[..i])
    {
      ShiftSubtractStep(hash, s[i]);
      hash := Int32(Int32(hash * 32) - hash + s[i] as int);
      assert s[..i + 1][..i] == s[..i];
    }
    assert s[..|s|] == s;
  }

  /** `hashTranscript`: hashes the cleaned text and renders the hash in base 36. */
  method HashTranscript(text: string) returns (r: string)
    ensures r == TranscriptHash(text)
  {
    var cleaned := CleanTranscript(text);
    var hash := HashCodeUnits(cleaned);
    r := Base36(hash);
  }

  /**
   * Two texts get equal hash strings exactly when their cleaned forms hash
   * to the same 32-bit value; in particular texts that clean alike hash alike,
   * and a text that cleans to "" hashes to "0".
   */
  lemma TranscriptHashEquality(a: string, b: string)
    ensures TranscriptHash(a) == TranscriptHash(b) <==> HashOf(Clean(a)) == HashOf(Clean(b))
    ensures Clean(a) == Clean(b) ==> TranscriptHash(a) == TranscriptHash(b)
    ensures Clean(a) == "" ==> TranscriptHash(a) == "0"
  {
    Base36Injective(HashOf(Clean(a)), HashOf(Clean(b)));
  }

  // ---------------------------------------------------------------------------
  // formatTranscriptForDisplay
  // ---------------------------------------------------------------------------

  /** `replace(/([.!?])\s+/g, "$1\n\n")`: a sentence end and the white space after it become a paragraph break. */
  function BreakSentences(s: string): (r: string)
    decreases |s|
  {
    if s == [] then []
    else if IsSentenceEnd(s[0]) && |s| > 1 && IsSpace(s[1]) then
      [s[0]] + "\n\n" + BreakSentences(TrimStart(s[1..]))
    else [s[0]] + BreakSentences(s[1..])
  }

  /** Length of the run of line feeds at the start of `s`. */
  function NewlineRun(s: string): (k: nat)
    ensures k == RunOf(s, '\n')
  {
    RunOf(s, '\n')
  }

  /** `replace(/\n{3,}/g, "\n\n")`: runs of three or more line feeds shrink to two. */
  function SqueezeNewlines(s: string): (r: string)
    ensures s != [] && s[0] != '\n' ==> r != [] && r[0] == s[0]
    decreases |s|
  {
    if s == [] then []
    else if s[0] == '\n' then
      var k := NewlineRun(s);
      (if k >= 3 then "\n\n" else s[..k]) + SqueezeNewlines(s[k..])
    else [s[0]] + SqueezeNewlines(s[1..])
  }

  /** Three line feeds in a row start at position i. */
  predicate TripleNewlineAt(s: string, i: int) {
    0 <= i && i + 2 < |s| && s[i] == '\n' && s[i + 1] == '\n' && s[i + 2] == '\n'
  }

  predicate NoTripleNewline(s: string) {
    forall i :: 0 <= i < |s| ==> !TripleNewlineAt(s, i)
  }

  function FormatTranscriptForDisplay(text: string): string {
    Trim(SqueezeNewlines(BreakSentences(text)))
  }

  lemma {:induction false} SqueezeNewlinesShape(s: string)
    ensures NoTripleNewline(SqueezeNewlines(s))
    decreases |s|
  {
    if s != [] {
      if s[0] == '\n' {
        var k := NewlineRun(s);
        var head := if k >= 3 then "\n\n" else s[..k];
        var tail := SqueezeNewlines(s[k..]);
        SqueezeNewlinesShape(s[k..]);
        var r := head + tail;
        assert |head| <= 2 && forall j :: 0 <= j < |head| ==> head[j] == '\n';
        assert tail != [] ==> tail[0] != '\n';
        forall i | 0 <= i < |r| - 2 ensures !TripleNewlineAt(r, i) {
          assert !TripleNewlineAt(tail, i - |head|);
          if i >= |head| {
            assert r[i] == tail[i - |head|] && r[i + 1] == tail[i - |head| + 1] && r[i + 2] == tail[i - |head| + 2];
          } else if i + 2 >= |head| {
            var j := |head| - i;
            assert r[i + j] == tail[0];
          }
        }
      } else {
        SqueezeNewlinesShape(s[1..]);
        var tail := SqueezeNewlines(s[1..]);
        var r := [s[0]] + tail;
        forall i | 0 <= i < |r| - 2 ensures !TripleNewlineAt(r, i) {
          assert !TripleNewlineAt(tail, i - 1);
          if i > 0 {
            assert r[i] == tail[i - 1] && r[i + 1] == tail[i] && r[i + 2] == tail[i + 1];
          }
        }
      }
    }
  }

  /** A sentence break keeps the characters: the end mark, then only white space, then the rest. */
  lemma SentenceBreakKeepsText(c: char, gap: string, rest: string, broken: string)
    requires AllSpace(gap) && StripSpaces(broken) == StripSpaces(rest)
    ensures StripSpaces([c] + "\n\n" + broken) == StripSpaces([c] + (gap + rest))
  {
    var head := StripSpaces([c]);
    StripSpacesConcat([c] + "\n\n", broken);
    StripSpacesConcat([c], "\n\n");
    assert StripSpaces("\n\n") == [];
    assert StripSpaces([c] + "\n\n" + broken) == head + StripSpaces(rest);
    StripSpacesConcat([c], gap + rest);
    StripSpacesConcat(gap, rest);
    StripSpacesAllSpace(gap);
  }

  lemma {:induction false} BreakSentencesKeepsText(s: string)
    ensures StripSpaces(BreakSentences(s)) == StripSpaces(s)
    decreases |s|
  {
    if s != [] {
      assert s == [s[0]] + s[1..];
      if IsSentenceEnd(s[0]) && |s| > 1 && IsSpace(s[1]) {
        var rest := s[1..];
        var t := TrimStart(rest);
        BreakSentencesKeepsText(t);
        var gap := TrimStartSplit(rest);
        SentenceBreakKeepsText(s[0], gap, t, BreakSentences(t));
      } else {
        BreakSentencesKeepsText(s[1..]);
        StripSpacesConcat([s[0]], s[1..]);
        StripSpacesConcat([s[0]], BreakSentences(s[1..]));
      }
    }
  }

  lemma {:induction false} SqueezeNewlinesKeepsText(s: string)
    ensures StripSpaces(SqueezeNewlines(s)) == StripSpaces(s)
    decreases |s|
  {
    if s != [] {
      if s[0] == '\n' {
        var k := NewlineRun(s);
        var head := if k >= 3 then "\n\n" else s[..k];
        SqueezeNewlinesKeepsText(s[k..]);
        assert AllSpace(head) && AllSpace(s[..k]);
        assert s == s[..k] + s[k..];
        StripSpacesConcat(s[..k], s[k..]);
        StripSpacesConcat(head, SqueezeNewlines(s[k..]));
        StripSpacesAllSpace(head);
        StripSpacesAllSpace(s[..k]);
      } else {
        SqueezeNewlinesKeepsText(s[1..]);
        assert s == [s[0]] + s[1..];
        StripSpacesConcat([s[0]], s[1..]);
        StripSpacesConcat([s[0]], SqueezeNewlines(s[1..]));
      }
    }
  }

  lemma SliceNoTripleNewline(s: string, a: nat, b: nat)
    requires NoTripleNewline(s) && a <= b <= |s|
    ensures NoTripleNewline(s[a..b])
  {
    var t := s[a..b];
    forall i | 0 <= i < |t| - 2 ensures !TripleNewlineAt(t, i) {
      assert !TripleNewlineAt(s, a + i);
      assert t[i] == s[a + i] && t[i + 1] == s[a + i + 1] && t[i + 2] == s[a + i + 2];
    }
  }

  lemma TrimNoTripleNewline(s: string)
    requires NoTripleNewline(s)
    ensures NoTripleNewline(Trim(s))
  {
    var a, t := LeadingSpaces(s), Trim(s);
    SliceNoTripleNewline(s, a, a + |t|);
  }

  /**
   * The display form has no white space at either end, never three line
   * feeds in a row, and differs from the input only in white space.
   */
  lemma FormatTranscriptForDisplayShape(text: string)
    ensures NoEdgeSpace(FormatTranscriptForDisplay(text))
    ensures NoTripleNewline(FormatTranscriptForDisplay(text))
    ensures StripSpaces(FormatTranscriptForDisplay(text)) == StripSpaces(text)
  {
    var broken := BreakSentences(text);
    SqueezeNewlinesShape(broken);
    TrimNoTripleNewline(SqueezeNewlines(broken));
    StripSpacesTrim(SqueezeNewlines(broken));
    SqueezeNewlinesKeepsText(broken);
    BreakSentencesKeepsText(text);
  }

  // ---------------------------------------------------------------------------
  // truncateTranscript
  // ---------------------------------------------------------------------------

  const DEFAULT_PREVIEW_LENGTH: int := 200

  /** `text.substring(0, end)`: a negative end counts as 0, one past the length as the length. */
  function Prefix(text: string, end: int): (r: string)
    ensures |r| == if end < 0 then 0 else if end > |text| then |text| else end
    ensures r == text[..|r|]
  {
    if end < 0 then [] else if end > |text| then text else text[..end]
  }

  /** `maxLength` is `None` when the caller leaves it out. */
  function TruncateTranscript(text: string, maxLength: Option<int>): (r: string)
    ensures var m := maxLength.GetOr(DEFAULT_PREVIEW_LENGTH);
      && (|text| <= m ==> r == text)
      && (|text| > m ==> |r| >= 3 && r[|r| - 3..] == "..." && r[..|r| - 3] == Trim(Prefix(text, m - 3)))
      && (|text| > m && m >= 3 ==> |r| <= m)
  {
    var m := maxLength.GetOr(DEFAULT_PREVIEW_LENGTH);
    if |text| <= m then text
    else
      var kept := Trim(Prefix(text, m - 3));
      assert (kept + "...")[..|kept|] == kept;
      kept + "..."
  }
}
