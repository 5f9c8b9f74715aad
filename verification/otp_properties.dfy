/** What `extractOTP` promises, stated over the scanners of module Otp:
    each pattern is characterised by longest runs (backtracking never finds a
    different match), the bare-digits pattern decides whenever it can, and a
    code needs a run of at least four digits. */
module OtpProperties {
  import opened Wrappers
  import opened Otp

  function Min(a: int, b: int): int {
    if a <= b then a else b
  }

  /** A word-bounded run of 4 to 6 digits starts at `i`: what `/\b\d{4,6}\b/` finds. */
  predicate BoundedRunAt(text: string, i: nat)
    requires i <= |text|
  {
    var n := RunLength(text, i, Digit);
    && (i == 0 || !IsWordChar(text[i - 1]))
    && 4 <= n <= 6
    && (i + n == |text| || !IsWordChar(text[i + n]))
  }

  /** Every character that a class, a `\b` test or a folded ASCII keyword
      letter accepts lies in the Basic Multilingual Plane, so a character
      outside it (two surrogate units in JavaScript, one `char` here) is
      rejected by the patterns in either encoding. */
  lemma AcceptedCharsInBmp(c: char, cls: Class, letter: char)
    requires letter as int < 0x80
    ensures InClass(c, cls) ==> c as int < 0x1_0000
    ensures IsWordChar(c) ==> c as int < 0x80
    ensures Fold(c) == letter ==> c as int < 0x80
  {
  }

  /** Some four consecutive characters of the text are digits. */
  predicate HasFourDigits(text: string) {
    exists i: nat | i <= |text| :: AllDigits(text, i, 4)
  }

  lemma AllDigitsIffRun(text: string, p: nat, k: nat)
    requires p <= |text|
    ensures AllDigits(text, p, k) <==> RunLength(text, p, Digit) >= k
  {
    var n := RunLength(text, p, Digit);
    if n < k {
      assert p + n == |text| || !IsDigit(text[p + n]);
    }
  }

  // ---------------------------------------------------------------------------
  // Pattern 1: \b\d{4,6}\b
  // ---------------------------------------------------------------------------

  lemma {:induction false} BoundedDigitsFinds(text: string, i: nat, k: nat)
    requires i <= |text| && BoundedRunAt(text, i)
    requires RunLength(text, i, Digit) <= k
    ensures var n := RunLength(text, i, Digit);
      BoundedDigits(text, i, k) == Some(Match(i, i + n, i, i + n))
    decreases k
  {
    var n := RunLength(text, i, Digit);
    AllDigitsIffRun(text, i, k);
    if k == n {
      assert IsWordChar(text[i + n - 1]);
    } else {
      BoundedDigitsFinds(text, i, k - 1);
    }
  }

  /** The first pattern matches at `i` exactly when a word-bounded run of 4 to
      6 digits starts there, and then the match is that run. */
  lemma BareCodeMatchesBoundedRun(text: string, i: nat)
    requires i <= |text|
    ensures MatchAt(text, i, BareCode).Some? <==> BoundedRunAt(text, i)
    ensures BoundedRunAt(text, i) ==> var n := RunLength(text, i, Digit);
      MatchAt(text, i, BareCode) == Some(Match(i, i + n, i, i + n))
  {
    var r := MatchAt(text, i, BareCode);
    if BoundedRunAt(text, i) {
      assert IsWordChar(text[i]);
      BoundedDigitsFinds(text, i, MaxDigits);
    }
    if r.Some? {
      var n := r.value.end - i;
      assert IsWordChar(text[i]) && IsWordChar(text[i + n - 1]);
      RunLengthUnique(text, i, Digit, n);
    }
  }

  /** `FirstMatch` from `from` returns the match at `i` when no position in
      between matches. */
  lemma FirstMatchAt(text: string, p: Pattern, from: nat, i: nat)
    requires from <= i <= |text| && ValidPattern(p)
    requires MatchAt(text, i, p).Some?
    requires forall j :: from <= j < i ==> MatchAt(text, j, p).None?
    ensures FirstMatch(text, p, from) == MatchAt(text, i, p)
  {
  }

  /** Whenever the text holds a word-bounded run of 4 to 6 digits, the code is
      the leftmost such run, whatever keyword phrases appear elsewhere. */
  lemma LeftmostBoundedRunWins(text: string, i: nat)
    requires i <= |text| && BoundedRunAt(text, i)
    requires forall j :: 0 <= j < i ==> !BoundedRunAt(text, j)
    ensures ExtractOtp(text) == Some(text[i..i + RunLength(text, i, Digit)])
  {
    var n := RunLength(text, i, Digit);
    assert FirstMatch(text, Patterns[0], 0) == Some(Match(i, i + n, i, i + n)) by {
      forall j | 0 <= j < i ensures MatchAt(text, j, BareCode).None? {
        BareCodeMatchesBoundedRun(text, j);
      }
      BareCodeMatchesBoundedRun(text, i);
      PatternsValid();
      FirstMatchAt(text, BareCode, 0, i);
    }
    ExtractOtpIsFirstHit(text);
  }

  /** Without a word-bounded run, the keyword patterns decide, in list order. */
  lemma NoBoundedRunFallsThrough(text: string)
    requires forall j :: 0 <= j <= |text| ==> !BoundedRunAt(text, j)
    ensures forall k :: 0 <= k < |Patterns| - 1 ==> ValidPattern(Patterns[1..][k])
    ensures ExtractOtp(text) == TryPatterns(text, Patterns[1..])
  {
    PatternsValid();
    var r := FirstMatch(text, BareCode, 0);
    if r.Some? {
      BareCodeMatchesBoundedRun(text, r.value.start);
    }
  }

  // ---------------------------------------------------------------------------
  // Patterns 2, 3, 4 and 6: keyword[sep]*(\d{4,6})
  // ---------------------------------------------------------------------------

  lemma {:induction false} GreedyDigitsLongest(text: string, p: nat, k: nat)
    requires p <= |text|
    ensures var n := RunLength(text, p, Digit);
      GreedyDigits(text, p, k) == if 4 <= k && 4 <= n then Some(Min(k, n)) else None
    decreases k
  {
    AllDigitsIffRun(text, p, k);
    if k >= 4 && !AllDigits(text, p, k) {
      GreedyDigitsLongest(text, p, k - 1);
    }
  }

  /** Giving back separators never helps: a separator is not a digit. */
  lemma {:induction false} GivingBackSeparatorsFails(text: string, i: nat, j: nat, n: nat)
    requires i <= j && j + n < |text|
    requires forall q :: i <= q <= j + n ==> !IsDigit(text[q])
    ensures SepsThenDigits(text, i, j, n).None?
    decreases n
  {
    GreedyDigitsLongest(text, j + n, MaxDigits);
    if n > 0 {
      GivingBackSeparatorsFails(text, i, j, n - 1);
    }
  }

  lemma KeywordAndSeparatorsHaveNoDigits(text: string, i: nat, keyword: string, sep: Sep)
    requires i <= |text| && ValidPattern(Labelled(keyword, sep)) && PhraseAt(text, i, keyword)
    ensures var j := i + |keyword|;
      forall q :: i <= q < j + RunLength(text, j, SepClass(sep)) ==> !IsDigit(text[q])
  {
    var j := i + |keyword|;
    var n := RunLength(text, j, SepClass(sep));
    forall q | i <= q < j + n ensures !IsDigit(text[q]) {
      if q < j {
        assert Fold(text[i + (q - i)]) == keyword[q - i];
      } else {
        assert InClass(text[q], SepClass(sep));
      }
    }
  }

  /** The reference result of `[sep]*(\d{4,6})` once the separators end at
      `p`: the first six digits of the run at `p`, if it has at least four. */
  function DigitsAfter(text: string, start: nat, p: nat): Option<Match>
    requires p <= |text|
  {
    var d := RunLength(text, p, Digit);
    if 4 <= d then Some(Match(start, p + Min(6, d), p, p + Min(6, d))) else None
  }

  /** `[sep]*(\d{4,6})` with the separator star at its longest: the digits
      that follow it decide, and backtracking finds nothing more. */
  lemma LongestSeparatorsDecide(text: string, i: nat, j: nat, n: nat)
    requires i <= j && j + n <= |text|
    requires forall q :: i <= q < j + n ==> !IsDigit(text[q])
    ensures SepsThenDigits(text, i, j, n) == DigitsAfter(text, i, j + n)
  {
    var p := j + n;
    var d := RunLength(text, p, Digit);
    GreedyDigitsLongest(text, p, MaxDigits);
    if 4 <= d {
      assert GreedyDigits(text, p, MaxDigits) == Some(Min(6, d));
    } else {
      assert GreedyDigits(text, p, MaxDigits).None?;
      if n > 0 {
        GivingBackSeparatorsFails(text, i, j, n - 1);
      }
    }
  }

  /** Where the keyword occurs, the digits after its longest separator run decide. */
  lemma KeywordThenLongestRuns(text: string, i: nat, keyword: string, sep: Sep)
    requires i <= |text| && ValidPattern(Labelled(keyword, sep)) && PhraseAt(text, i, keyword)
    ensures var j := i + |keyword|;
      MatchAt(text, i, Labelled(keyword, sep)) == DigitsAfter(text, i, j + RunLength(text, j, SepClass(sep)))
  {
    var j := i + |keyword|;
    var n := RunLength(text, j, SepClass(sep));
    KeywordAndSeparatorsHaveNoDigits(text, i, keyword, sep);
    LongestSeparatorsDecide(text, i, j, n);
  }

  /** A keyword pattern matches at `i` exactly when the keyword is there
      (ignoring ASCII case) and the longest run of separators after it is
      followed by at least four digits; the code is the first six of them. */
  lemma LabelledMatchesLongestRuns(text: string, i: nat, keyword: string, sep: Sep)
    requires i <= |text| && ValidPattern(Labelled(keyword, sep))
    ensures !PhraseAt(text, i, keyword) ==> MatchAt(text, i, Labelled(keyword, sep)).None?
    ensures PhraseAt(text, i, keyword) ==>
      MatchAt(text, i, Labelled(keyword, sep)) ==
        DigitsAfter(text, i, i + |keyword| + RunLength(text, i + |keyword|, SepClass(sep)))
  {
    if PhraseAt(text, i, keyword) {
      KeywordThenLongestRuns(text, i, keyword, sep);
    }
  }

  // ---------------------------------------------------------------------------
  // Pattern 5: (\d{4,6})[\s]*is your code
  // ---------------------------------------------------------------------------

  /** Giving back spaces never helps: "is your code" starts with a letter. */
  lemma {:induction false} SpacesThenPhraseLongest(text: string, q: nat, n: nat)
    requires q + n <= |text|
    requires forall j :: q <= j < q + n ==> IsSpace(text[j])
    ensures SpacesThenPhrase(text, q, n).Some? <==> PhraseAt(text, q + n, SuffixPhrase)
    decreases n
  {
    if n > 0 && !PhraseAt(text, q + n, SuffixPhrase) {
      SpacesThenPhraseLongest(text, q, n - 1);
      PhraseNeedsLetter(text, q + n - 1);
    }
  }

  /** "is your code" cannot start at a space or a digit. */
  lemma PhraseNeedsLetter(text: string, q: nat)
    requires q < |text| && (IsSpace(text[q]) || IsDigit(text[q]))
    ensures !PhraseAt(text, q, SuffixPhrase)
  {
    if q + |SuffixPhrase| <= |text| {
      assert Fold(text[q + 0]) != SuffixPhrase[0];
    }
  }

  /** A digit cannot be followed by "is your code" at the same position. */
  lemma DigitBlocksPhrase(text: string, q: nat)
    requires q < |text| && IsDigit(text[q])
    ensures RunLength(text, q, Space) == 0
    ensures SpacesThenPhrase(text, q, 0).None?
  {
    PhraseNeedsLetter(text, q);
  }

  /** The end of "is your code" after the longest run of spaces from `q`, if it is there. */
  function PhraseAfterSpaces(text: string, q: nat): Option<nat>
    requires q <= |text|
  {
    var s := RunLength(text, q, Space);
    if PhraseAt(text, q + s, SuffixPhrase) then Some(q + s + |SuffixPhrase|) else None
  }

  lemma SpacesThenPhraseAtLongest(text: string, q: nat)
    requires q <= |text|
    ensures SpacesThenPhrase(text, q, RunLength(text, q, Space)) == PhraseAfterSpaces(text, q)
  {
    var n := RunLength(text, q, Space);
    SpacesThenPhraseLongest(text, q, n);
    if PhraseAt(text, q + n, SuffixPhrase) {
      assert SpacesThenPhrase(text, q, n) == Some(q + n + |SuffixPhrase|);
    }
  }

  /** The reference result of `(\d{4,6})[\s]*is your code` at `i` when at
      most `k` digits are tried: the whole digit run, if it has 4 to `k`
      digits and spaces then the phrase follow it. */
  function PhraseAfterRun(text: string, i: nat, k: nat): Option<Match>
    requires i <= |text|
  {
    var n := RunLength(text, i, Digit);
    var e := PhraseAfterSpaces(text, i + n);
    if 4 <= n <= k && e.Some? then Some(Match(i, e.value, i, i + n)) else None
  }

  /** One fewer digit tried changes the reference result only when `k` is the
      whole run and the phrase follows it. */
  lemma PhraseAfterRunShrinks(text: string, i: nat, k: nat)
    requires i <= |text| && 1 <= k
    requires k != RunLength(text, i, Digit) || PhraseAfterSpaces(text, i + k).None?
    ensures PhraseAfterRun(text, i, k) == PhraseAfterRun(text, i, k - 1)
  {
  }

  /** When `k` digits are not there, or no phrase follows them, the scanner
      gives back a digit. */
  lemma DigitsThenPhraseSkips(text: string, i: nat, k: nat, after: Option<nat>)
    requires i <= |text| && 4 <= k <= 6
    requires AllDigits(text, i, k) ==> after == SpacesThenPhrase(text, i + k, RunLength(text, i + k, Space))
    requires AllDigits(text, i, k) ==> after.None?
    ensures DigitsThenPhrase(text, i, k) == DigitsThenPhrase(text, i, k - 1)
  {
  }

  /** A digit run longer than `k`: the `k`-digit group is followed by a digit. */
  lemma SkipPastLongerRun(text: string, i: nat, k: nat)
    requires i <= |text| && 4 <= k <= 6 && k < RunLength(text, i, Digit)
    ensures DigitsThenPhrase(text, i, k) == DigitsThenPhrase(text, i, k - 1)
  {
    AllDigitsIffRun(text, i, k);
    DigitBlocksPhrase(text, i + k);
    DigitsThenPhraseSkips(text, i, k, SpacesThenPhrase(text, i + k, 0));
  }

  /** A digit run shorter than `k`: `k` digits are not there. */
  lemma SkipPastShorterRun(text: string, i: nat, k: nat)
    requires i <= |text| && 4 <= k <= 6 && RunLength(text, i, Digit) < k
    ensures DigitsThenPhrase(text, i, k) == DigitsThenPhrase(text, i, k - 1)
  {
    AllDigitsIffRun(text, i, k);
    DigitsThenPhraseSkips(text, i, k, None);
  }

  /** The whole run, with no phrase after its spaces. */
  lemma SkipWithoutPhrase(text: string, i: nat, k: nat)
    requires i <= |text| && 4 <= k <= 6 && RunLength(text, i, Digit) == k
    requires PhraseAfterSpaces(text, i + k).None?
    ensures DigitsThenPhrase(text, i, k) == DigitsThenPhrase(text, i, k - 1)
  {
    SpacesThenPhraseAtLongest(text, i + k);
    DigitsThenPhraseSkips(text, i, k, PhraseAfterSpaces(text, i + k));
  }

  /** The whole run, followed by spaces and the phrase ending at `e`: the
      scanner stops at once. */
  lemma HitWithPhrase(text: string, i: nat, k: nat, e: nat)
    requires i <= |text| && 4 <= k <= 6 && RunLength(text, i, Digit) == k
    requires PhraseAfterSpaces(text, i + k) == Some(e)
    ensures DigitsThenPhrase(text, i, k) == Some(Match(i, e, i, i + k))
  {
    AllDigitsIffRun(text, i, k);
    SpacesThenPhraseAtLongest(text, i + k);
  }

  /** The same case on the reference side. */
  lemma PhraseAfterWholeRun(text: string, i: nat, k: nat, e: nat)
    requires i <= |text| && 4 <= k <= 6 && RunLength(text, i, Digit) == k
    requires PhraseAfterSpaces(text, i + k) == Some(e)
    ensures PhraseAfterRun(text, i, k) == Some(Match(i, e, i, i + k))
  {
  }

  lemma {:induction false} DigitsThenPhraseLongest(text: string, i: nat, k: nat)
    requires i <= |text| && k <= 6
    ensures DigitsThenPhrase(text, i, k) == PhraseAfterRun(text, i, k)
    decreases k
  {
    if 4 <= k {
      var n := RunLength(text, i, Digit);
      if k < n {
        SkipPastLongerRun(text, i, k);
      } else if n < k {
        SkipPastShorterRun(text, i, k);
      } else if PhraseAfterSpaces(text, i + k).None? {
        SkipWithoutPhrase(text, i, k);
      } else {
        HitWithPhrase(text, i, k, PhraseAfterSpaces(text, i + k).value);
        PhraseAfterWholeRun(text, i, k, PhraseAfterSpaces(text, i + k).value);
        return;
      }
      PhraseAfterRunShrinks(text, i, k);
      DigitsThenPhraseLongest(text, i, k - 1);
    }
  }

  /** The fifth pattern matches at `i` exactly when a maximal run of 4 to 6
      digits starts there and, after the longest run of spaces, the phrase
      "is your code" follows (ignoring ASCII case); the code is that run. */
  lemma CodeBeforePhraseMatchesLongestRuns(text: string, i: nat)
    requires i <= |text|
    ensures var n := RunLength(text, i, Digit);
      var e := PhraseAfterSpaces(text, i + n);
      MatchAt(text, i, CodeBeforePhrase) ==
        if 4 <= n <= 6 && e.Some? then Some(Match(i, e.value, i, i + n)) else None
  {
    assert MatchAt(text, i, CodeBeforePhrase) == PhraseAfterRun(text, i, MaxDigits) by {
      CodeBeforePhraseScans(text, i);
      DigitsThenPhraseLongest(text, i, MaxDigits);
    }
  }

  /** The fifth pattern is the digits-then-phrase scanner with all six digits allowed. */
  lemma CodeBeforePhraseScans(text: string, i: nat)
    requires i <= |text|
    ensures MatchAt(text, i, CodeBeforePhrase) == DigitsThenPhrase(text, i, MaxDigits)
  {
  }

  // ---------------------------------------------------------------------------
  // Whole-extractor facts
  // ---------------------------------------------------------------------------

  /** The reference for the pattern loop: the capture group of the first
      pattern in list order that matches anywhere in the text. */
  function FirstHit(text: string, ps: seq<Pattern>): Option<string>
    requires forall k :: 0 <= k < |ps| ==> ValidPattern(ps[k])
  {
    if ps == [] then None
    else
      match FirstMatch(text, ps[0], 0)
      case Some(m) => Some(text[m.groupStart..m.groupEnd])
      case None => FirstHit(text, ps[1..])
  }

  /** The loop returns the group of the first matching pattern: the
      `numbers[0].length >= 4` guard never sends it on to a later pattern,
      because every match holds a group of at least four digits. */
  lemma {:induction false} TryPatternsIsFirstHit(text: string, ps: seq<Pattern>)
    requires forall k :: 0 <= k < |ps| ==> ValidPattern(ps[k])
    ensures TryPatterns(text, ps) == FirstHit(text, ps)
  {
    if ps != [] {
      var r := FirstMatch(text, ps[0], 0);
      if r.Some? {
        FirstDigitRunOfMatch(text, r.value);
      } else {
        TryPatternsIsFirstHit(text, ps[1..]);
      }
    }
  }

  /** `extractOTP` is the first-hit reference over the six patterns in order. */
  lemma ExtractOtpIsFirstHit(text: string)
    ensures forall k :: 0 <= k < |Patterns| ==> ValidPattern(Patterns[k])
    ensures ExtractOtp(text) == FirstHit(text, Patterns)
  {
    PatternsValid();
    TryPatternsIsFirstHit(text, Patterns);
  }

  /** Every pattern needs `\d{4,6}`, so text without four consecutive digits has no code. */
  lemma OtpNeedsFourDigits(text: string)
    ensures !HasFourDigits(text) ==> ExtractOtp(text) == None
  {
    var r := ExtractOtp(text);
    if r.Some? {
      var i, j :| 0 <= i <= j <= |text| && text[i..j] == r.value;
      assert AllDigits(text, i, 4) by {
        forall q | i <= q < i + 4 ensures IsDigit(text[q]) {
          assert text[q] == r.value[q - i];
        }
      }
    }
  }

  /** The bare-digits pattern is tried first: a code that precedes a
      "code: ..." phrase is returned instead of the labelled one. */
  lemma BareRunBeforeLabel(text: string)
    requires text == "654321 code: 123456"
    ensures ExtractOtp(text) == Some("654321")
  {
    RunLengthUnique(text, 0, Digit, 6);
    LeftmostBoundedRunWins(text, 0);
    assert text[0..6] == "654321";
  }

  lemma GluedTextHasNoBoundedRun(text: string)
    requires text == "code1234"
    ensures forall j :: 0 <= j <= |text| ==> !BoundedRunAt(text, j)
  {
    forall j | 0 <= j <= |text| ensures !BoundedRunAt(text, j) {
      if j < 4 || j == 8 {
        RunLengthUnique(text, j, Digit, 0);
      } else {
        assert IsWordChar(text[j - 1]);
      }
    }
  }

  lemma GluedTextMatchesKeyword(text: string)
    requires text == "code1234"
    ensures MatchAt(text, 0, Labelled("code", ColonOrSpaceSep)) == Some(Match(0, 8, 4, 8))
  {
    assert PhraseAt(text, 0, "code");
    RunLengthUnique(text, 4, ColonOrSpace, 0);
    RunLengthUnique(text, 4, Digit, 4);
    LabelledMatchesLongestRuns(text, 0, "code", ColonOrSpaceSep);
  }

  /** Without a word boundary between keyword and digits, the keyword pattern decides. */
  lemma KeywordGluedToDigits(text: string)
    requires text == "code1234"
    ensures ExtractOtp(text) == Some("1234")
  {
    GluedTextHasNoBoundedRun(text);
    NoBoundedRunFallsThrough(text);
    var p := Labelled("code", ColonOrSpaceSep);
    assert Patterns[1..][0] == p;
    GluedTextMatchesKeyword(text);
    var m := Match(0, 8, 4, 8);
    assert FirstMatch(text, p, 0) == Some(m);
    FirstDigitRunOfMatch(text, m);
    assert text[4..8] == "1234";
  }
}
