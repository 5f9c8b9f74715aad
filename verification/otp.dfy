/** The one-time-passcode extractor of server.js (`extractOTP`).

    Each of the six regular expressions is modelled as a scanner over the text
    that follows the backtracking order of a JavaScript regex engine: a greedy
    `\d{4,6}` tries six, then five, then four digits, and a greedy `[:\s]*`
    or `\s*` gives back one character at a time when what follows fails.
    `String.prototype.match` reports the leftmost match (`FirstMatch`), and the
    digits of the whole match are then re-scanned with `/\d+/` (`FirstDigitRun`). */
module Otp {
  import opened Wrappers

  // ---------------------------------------------------------------------------
  // Character classes of ECMAScript regular expressions (non-unicode mode)
  // ---------------------------------------------------------------------------

  /** `\d`: the ASCII digits only. */
  predicate IsDigit(c: char) {
    '0' <= c <= '9'
  }

  /** The word characters that `\b` looks at: `[A-Za-z0-9_]`. */
  predicate IsWordChar(c: char) {
    IsDigit(c) || 'a' <= c <= 'z' || 'A' <= c <= 'Z' || c == '_'
  }

  /** `\s`: the ECMAScript WhiteSpace and LineTerminator code points. These
      are tab, line feed, vertical tab, form feed and carriage return
      (U+0009 to U+000D), space, no-break space, U+1680, the space
      separators U+2000 to U+200A, the line and paragraph separators, U+202F,
      U+205F, U+3000 and the byte-order mark U+FEFF. */
  predicate IsSpace(c: char) {
    || '\t' <= c <= '\r' || c == ' ' || c == '\U{A0}' || c == '\U{1680}'
    || '\U{2000}' <= c <= '\U{200A}' || c == '\U{2028}' || c == '\U{2029}'
    || c == '\U{202F}' || c == '\U{205F}' || c == '\U{3000}' || c == '\U{FEFF}'
  }

  /** The classes that a starred or counted atom of the six patterns ranges over. */
  datatype Class = Digit | Space | ColonOrSpace

  predicate InClass(c: char, cls: Class) {
    match cls
    case Digit => IsDigit(c)
    case Space => IsSpace(c)
    case ColonOrSpace => c == ':' || IsSpace(c)
  }

  /** Case folding of the `/i` flag without `/u`: only ASCII letters fold. */
  function Fold(c: char): (f: char)
    ensures IsDigit(f) <==> IsDigit(c)
    ensures 'A' <= c <= 'Z' ==> 'a' <= f <= 'z'
    ensures !('A' <= c <= 'Z') ==> f == c
  {
    if 'A' <= c <= 'Z' then (c as int + 32) as char else c
  }

  /** The lower-case literal `phrase` occurs at `i`, ignoring ASCII case. */
  predicate PhraseAt(text: string, i: nat, phrase: string) {
    && i + |phrase| <= |text|
    && forall k :: 0 <= k < |phrase| ==> Fold(text[i + k]) == phrase[k]
  }

  /** The `k` characters from `i` are all digits. */
  predicate AllDigits(text: string, i: nat, k: nat) {
    i + k <= |text| && forall j :: i <= j < i + k ==> IsDigit(text[j])
  }

  predicate IsDigits(s: string) {
    forall j :: 0 <= j < |s| ==> IsDigit(s[j])
  }

  /** The length of the longest run of `cls` characters starting at `i`. */
  function RunLength(text: string, i: nat, cls: Class): (n: nat)
    requires i <= |text|
    decreases |text| - i
    ensures i + n <= |text|
    ensures forall j :: i <= j < i + n ==> InClass(text[j], cls)
    ensures i + n == |text| || !InClass(text[i + n], cls)
  {
    if i < |text| && InClass(text[i], cls) then 1 + RunLength(text, i + 1, cls) else 0
  }

  /** A run of `cls` characters of length `n` that cannot be extended is the longest one. */
  lemma RunLengthUnique(text: string, i: nat, cls: Class, n: nat)
    requires i + n <= |text|
    requires forall j :: i <= j < i + n ==> InClass(text[j], cls)
    requires i + n == |text| || !InClass(text[i + n], cls)
    ensures RunLength(text, i, cls) == n
  {
  }

  /** `\b` at position `p`: exactly one of the characters around `p` is a word character. */
  predicate IsBoundary(text: string, p: nat)
    requires p <= |text|
  {
    (p > 0 && IsWordChar(text[p - 1])) != (p < |text| && IsWordChar(text[p]))
  }

  // ---------------------------------------------------------------------------
  // Matches and the six patterns
  // ---------------------------------------------------------------------------

  /** The upper bound of `\d{4,6}`, the digit run every pattern looks for. */
  const MaxDigits: nat := 6

  /** A match: `text[start..end]` is `match[0]`, `text[groupStart..groupEnd]`
      is the digit run the pattern is after (its capture group, or the whole
      match for the bare-digits pattern). */
  datatype Match = Match(start: nat, end: nat, groupStart: nat, groupEnd: nat)

  /** What every match of the six patterns looks like: a run of 4 to 6 digits,
      nothing but non-digits before it inside the match, and not followed by a
      digit inside the match. */
  predicate WellFormed(text: string, m: Match) {
    && m.start <= m.groupStart <= m.groupEnd <= m.end <= |text|
    && 4 <= m.groupEnd - m.groupStart <= 6
    && AllDigits(text, m.groupStart, m.groupEnd - m.groupStart)
    && (forall j :: m.start <= j < m.groupStart ==> !IsDigit(text[j]))
    && (m.groupEnd == m.end || !IsDigit(text[m.groupEnd]))
  }

  /** The separator class after a label: `[:\s]` or `[\s]`. */
  datatype Sep = ColonOrSpaceSep | SpaceSep

  function SepClass(sep: Sep): Class {
    match sep
    case ColonOrSpaceSep => ColonOrSpace
    case SpaceSep => Space
  }

  /** The three shapes of the six patterns:
      `\b\d{4,6}\b`; `label[sep]*(\d{4,6})`; `(\d{4,6})[\s]*is your code`. */
  datatype Pattern =
    | BareCode
    | Labelled(keyword: string, sep: Sep)
    | CodeBeforePhrase

  const SuffixPhrase: string := "is your code"

  /** The pattern list of `extractOTP`, in the order it is tried. */
  const Patterns: seq<Pattern> := [
    BareCode,
    Labelled("code", ColonOrSpaceSep),
    Labelled("otp", ColonOrSpaceSep),
    Labelled("verification", ColonOrSpaceSep),
    CodeBeforePhrase,
    Labelled("your code is", SpaceSep)
  ]

  /** Labels hold no digits, so a match's digits all belong to its group. */
  predicate ValidPattern(p: Pattern) {
    p.Labelled? ==> !exists j :: 0 <= j < |p.keyword| && IsDigit(p.keyword[j])
  }

  lemma PatternsValid()
    ensures forall k :: 0 <= k < |Patterns| ==> ValidPattern(Patterns[k])
  {
  }

  /** `\d{4,6}` followed by `\b`, trying `k`, `k-1`, ..., 4 digits at `i`. */
  function BoundedDigits(text: string, i: nat, k: nat): (r: Option<Match>)
    requires i <= |text|
    ensures r.Some? ==> var n := r.value.end - i;
      && r.value == Match(i, i + n, i, i + n)
      && 4 <= n <= k && AllDigits(text, i, n) && IsBoundary(text, i + n)
  {
    if k < 4 then None
    else if AllDigits(text, i, k) && IsBoundary(text, i + k) then Some(Match(i, i + k, i, i + k))
    else BoundedDigits(text, i, k - 1)
  }

  /** Greedy `\d{4,6}` with nothing after it: the most digits, up to `k`, found at `p`. */
  function GreedyDigits(text: string, p: nat, k: nat): (r: Option<nat>)
    requires p <= |text|
    ensures r.Some? ==> 4 <= r.value <= k && AllDigits(text, p, r.value)
    ensures r.Some? && r.value < k ==> p + r.value == |text| || !IsDigit(text[p + r.value])
    ensures r.None? ==> k < 4 || !AllDigits(text, p, 4)
  {
    if k < 4 then None
    else if AllDigits(text, p, k) then Some(k)
    else GreedyDigits(text, p, k - 1)
  }

  /** `[sep]*(\d{4,6})` after a label that ends at `j`, with the star holding
      `n` separators and giving them back one at a time on failure. */
  function SepsThenDigits(text: string, i: nat, j: nat, n: nat): (r: Option<Match>)
    requires i <= j && j + n <= |text|
    requires forall q :: i <= q < j + n ==> !IsDigit(text[q])
    ensures r.Some? ==> r.value.start == i && r.value.groupEnd == r.value.end && WellFormed(text, r.value)
  {
    match GreedyDigits(text, j + n, MaxDigits)
    case Some(d) => Some(Match(i, j + n + d, j + n, j + n + d))
    case None => if n == 0 then None else SepsThenDigits(text, i, j, n - 1)
  }

  /** `[\s]*is your code` from `q`, with the star holding `n` spaces and backtracking. */
  function SpacesThenPhrase(text: string, q: nat, n: nat): (r: Option<nat>)
    requires q + n <= |text|
    requires forall j :: q <= j < q + n ==> IsSpace(text[j])
    ensures r.Some? ==> q < r.value <= |text| && !IsDigit(text[q])
  {
    if PhraseAt(text, q + n, SuffixPhrase) then
      assert n == 0 ==> Fold(text[q + 0]) == SuffixPhrase[0] == 'i';
      assert n > 0 ==> IsSpace(text[q]);
      Some(q + n + |SuffixPhrase|)
    else if n == 0 then None
    else SpacesThenPhrase(text, q, n - 1)
  }

  /** `(\d{4,6})[\s]*is your code` at `i`, trying `k`, `k-1`, ..., 4 digits. */
  function DigitsThenPhrase(text: string, i: nat, k: nat): (r: Option<Match>)
    requires i <= |text| && k <= 6
    ensures r.Some? ==> r.value.start == i && r.value.groupStart == i && WellFormed(text, r.value)
  {
    if k < 4 then None
    else if AllDigits(text, i, k) then
      match SpacesThenPhrase(text, i + k, RunLength(text, i + k, Space))
      case Some(e) => Some(Match(i, e, i, i + k))
      case None => DigitsThenPhrase(text, i, k - 1)
    else DigitsThenPhrase(text, i, k - 1)
  }

  /** `keyword[sep]*(\d{4,6})` at `i`, the keyword compared ignoring ASCII case. */
  function KeywordAt(text: string, i: nat, keyword: string, sep: Sep): (r: Option<Match>)
    requires i <= |text|
    requires ValidPattern(Labelled(keyword, sep))
    ensures r.Some? ==> r.value.start == i && WellFormed(text, r.value)
  {
    if PhraseAt(text, i, keyword) then
      var j := i + |keyword|;
      forall q | i <= q < j ensures !IsDigit(text[q]) {
        assert Fold(text[i + (q - i)]) == keyword[q - i];
      }
      SepsThenDigits(text, i, j, RunLength(text, j, SepClass(sep)))
    else None
  }

  /** Whether pattern `p` matches starting exactly at position `i`. */
  function MatchAt(text: string, i: nat, p: Pattern): (r: Option<Match>)
    requires i <= |text|
    requires ValidPattern(p)
    ensures r.Some? ==> r.value.start == i && WellFormed(text, r.value)
  {
    match p
    case BareCode =>
      if IsBoundary(text, i) then BoundedDigits(text, i, MaxDigits) else None
    case Labelled(keyword, sep) =>
      KeywordAt(text, i, keyword, sep)
    case CodeBeforePhrase =>
      DigitsThenPhrase(text, i, MaxDigits)
  }

  /** `text.match(p)`: the leftmost match of `p` at a position from `i` on. */
  function FirstMatch(text: string, p: Pattern, i: nat): (r: Option<Match>)
    requires i <= |text|
    requires ValidPattern(p)
    decreases |text| - i
    ensures r.Some? ==> i <= r.value.start <= |text| && MatchAt(text, r.value.start, p) == r
    ensures r.Some? ==> forall j :: i <= j < r.value.start ==> MatchAt(text, j, p).None?
    ensures r.None? ==> forall j :: i <= j <= |text| ==> MatchAt(text, j, p).None?
  {
    match MatchAt(text, i, p)
    case Some(m) => Some(m)
    case None => if i == |text| then None else FirstMatch(text, p, i + 1)
  }

  /** `s.match(/\d+/)`: the leftmost maximal run of digits in `s`. */
  function FirstDigitRun(s: string): (r: Option<string>)
    ensures r.Some? ==> |r.value| > 0 && IsDigits(r.value)
  {
    if |s| == 0 then None
    else if IsDigit(s[0]) then Some(s[..RunLength(s, 0, Digit)])
    else FirstDigitRun(s[1..])
  }

  /** Re-scanning a well-formed match with `/\d+/` yields exactly its group. */
  lemma {:induction false} FirstDigitRunOfMatch(text: string, m: Match)
    requires WellFormed(text, m)
    ensures FirstDigitRun(text[m.start..m.end]) == Some(text[m.groupStart..m.groupEnd])
    decreases m.groupStart - m.start
  {
    var s := text[m.start..m.end];
    if m.start == m.groupStart {
      var n := m.groupEnd - m.groupStart;
      assert IsDigit(s[0]);
      RunLengthUnique(s, 0, Digit, n);
      assert s[..n] == text[m.groupStart..m.groupEnd];
    } else {
      assert !IsDigit(s[0]);
      var m' := m.(start := m.start + 1);
      FirstDigitRunOfMatch(text, m');
      assert s[1..] == text[m'.start..m'.end];
    }
  }

  // ---------------------------------------------------------------------------
  // extractOTP
  // ---------------------------------------------------------------------------

  /** `s` occurs in `text` at some position. */
  predicate IsSubstring(s: string, text: string) {
    exists i, j :: 0 <= i <= j <= |text| && text[i..j] == s
  }

  /** The `for (const pattern of otpPatterns)` loop: the first pattern that
      matches and whose match holds a digit run of length at least 4 wins. */
  function TryPatterns(text: string, ps: seq<Pattern>): (r: Option<string>)
    requires forall k :: 0 <= k < |ps| ==> ValidPattern(ps[k])
    ensures r.Some? ==> 4 <= |r.value| <= 6 && IsDigits(r.value) && IsSubstring(r.value, text)
  {
    if ps == [] then None
    else
      match FirstMatch(text, ps[0], 0)
      case Some(m) =>
        var numbers := FirstDigitRun(text[m.start..m.end]);
        if numbers.Some? && |numbers.value| >= 4 then
          FirstDigitRunOfMatch(text, m);
          numbers
        else TryPatterns(text, ps[1..])
      case None => TryPatterns(text, ps[1..])
  }

  /** `extractOTP(text)`: a 4 to 6 digit substring of the text, or `null`. */
  function ExtractOtp(text: string): (r: Option<string>)
    ensures r.Some? ==> 4 <= |r.value| <= 6 && IsDigits(r.value) && IsSubstring(r.value, text)
  {
    PatternsValid();
    TryPatterns(text, Patterns)
  }
}
