/**
 * The four fixed regular expressions of the player script, as dedicated scanners over strings:
 *   TIME_RE          /[0-9]{1,2}:[0-9]{2}/
 *   RECAP_RE         /recap|episode/i
 *   TITLECARD_RE     /TC|title/i
 *   COMMENT_SPLIT_RE /(recap|episode).*?(?<recap>TIME)|(TC|title).*?(?<titlecard>TIME)/gi
 * Each scanner follows the backtracking order of the expression it replaces: the leftmost start
 * position wins, the first alternative is tried before the second, `{1,2}` tries two digits
 * before one and the lazy `.*?` takes the shortest gap that lets the rest match.
 */
module Patterns {
  import opened Wrappers

  /** A half-open range `[start, end)` of a string. */
  datatype Span = Span(start: nat, end: nat)

  predicate IsDigit(c: char) { '0' <= c <= '9' }

  /** The characters `.` refuses to match: line feed, carriage return, line and paragraph separator. */
  predicate IsLineTerminator(c: char) {
    c == '\n' || c == '\r' || c == '\U{2028}' || c == '\U{2029}'
  }

  /**
   * Case folding of an `/i` expression without the `u` flag, restricted to what the keywords
   * need: ASCII capitals fold onto ASCII small letters, and no other character folds onto an
   * ASCII letter.
   */
  function FoldCase(c: char): char {
    if 'A' <= c <= 'Z' then (c as int + 32) as char else c
  }

  /** `kw[j..]` occurs at position `i` of `s`, ignoring ASCII case. */
  predicate KeywordRestAt(s: seq<char>, i: nat, kw: seq<char>, j: nat)
    decreases |kw| - j
  {
    if j >= |kw| then i <= |s|
    else i < |s| && FoldCase(s[i]) == kw[j] && KeywordRestAt(s, i + 1, kw, j + 1)
  }

  /** The lower-case keyword `kw` occurs at position `i` of `s`, ignoring ASCII case. */
  predicate KeywordAt(s: seq<char>, i: nat, kw: seq<char>) {
    KeywordRestAt(s, i, kw, 0)
  }

  /** `kw` occurs at or after position `i` of `s`: the scan an unanchored match performs. */
  predicate HasKeywordFrom(s: seq<char>, kw: seq<char>, i: nat)
    decreases |s| - i
  {
    i <= |s| && (KeywordAt(s, i, kw) || (i < |s| && HasKeywordFrom(s, kw, i + 1)))
  }

  /** `kw` occurs somewhere in `s`, ignoring ASCII case. */
  predicate HasKeyword(s: seq<char>, kw: seq<char>) {
    HasKeywordFrom(s, kw, 0)
  }

  lemma {:induction false} KeywordRestAtMeaning(s: seq<char>, i: nat, kw: seq<char>, j: nat)
    requires j <= |kw|
    ensures KeywordRestAt(s, i, kw, j) <==>
      i + |kw| - j <= |s| && forall m :: i <= m < i + |kw| - j ==> FoldCase(s[m]) == kw[j + m - i]
    decreases |kw| - j
  {
    if j < |kw| && i < |s| {
      KeywordRestAtMeaning(s, i + 1, kw, j + 1);
    }
  }

  /** The keyword scanner reads `kw` character by character at `i`, ignoring ASCII case. */
  lemma KeywordAtMeaning(s: seq<char>, i: nat, kw: seq<char>)
    ensures KeywordAt(s, i, kw) <==>
      i + |kw| <= |s| && forall m :: i <= m < i + |kw| ==> FoldCase(s[m]) == kw[m - i]
  {
    KeywordRestAtMeaning(s, i, kw, 0);
  }

  lemma {:induction false} HasKeywordFromMeaning(s: seq<char>, kw: seq<char>, i: nat)
    requires i <= |s|
    ensures HasKeywordFrom(s, kw, i) <==> exists p :: i <= p <= |s| && KeywordAt(s, p, kw)
    decreases |s| - i
  {
    if i < |s| {
      HasKeywordFromMeaning(s, kw, i + 1);
    }
  }

  /** The unanchored keyword search succeeds exactly when the keyword occurs at some position. */
  lemma HasKeywordMeaning(s: seq<char>, kw: seq<char>)
    ensures HasKeyword(s, kw) <==> exists p :: 0 <= p <= |s| && KeywordAt(s, p, kw)
  {
    HasKeywordFromMeaning(s, kw, 0);
  }

  /** A keyword whose first letter `s` never shows, in either case, does not occur in `s`. */
  lemma NoKeywordWithoutFirstLetter(s: seq<char>, kw: seq<char>)
    requires |kw| > 0
    requires forall k :: 0 <= k < |s| ==> FoldCase(s[k]) != kw[0]
    ensures !HasKeyword(s, kw)
  {
    HasKeywordMeaning(s, kw);
    forall p | 0 <= p <= |s|
      ensures !KeywordAt(s, p, kw)
    {
      KeywordAtMeaning(s, p, kw);
    }
  }

  /** A keyword whose first two letters never appear side by side in `s` does not occur in `s`. */
  lemma NoKeywordWithoutFirstPair(s: seq<char>, kw: seq<char>)
    requires |kw| >= 2
    requires forall k :: 0 <= k < |s| - 1 ==> FoldCase(s[k]) != kw[0] || FoldCase(s[k + 1]) != kw[1]
    ensures !HasKeyword(s, kw)
  {
    HasKeywordMeaning(s, kw);
    forall p | 0 <= p <= |s|
      ensures !KeywordAt(s, p, kw)
    {
      KeywordAtMeaning(s, p, kw);
      if p + 1 < |s| {
        assert FoldCase(s[p]) != kw[0] || FoldCase(s[p + 1]) != kw[1];
        assert (p + 1) - p == 1;
      }
    }
  }

  /** `s.match(RECAP_RE) != null` */
  predicate MatchesRecap(s: seq<char>) {
    HasKeyword(s, "recap") || HasKeyword(s, "episode")
  }

  /** `s.match(TITLECARD_RE) != null`; as a substring test, "watch" and "match" are hits. */
  predicate MatchesTitle(s: seq<char>) {
    HasKeyword(s, "tc") || HasKeyword(s, "title")
  }

  /** `n` minute digits, a colon and two second digits start at position `i` of `s`. */
  predicate TokenShape(s: seq<char>, i: nat, n: nat) {
    i + n + 3 <= |s| && (forall q :: i <= q < i + n ==> IsDigit(s[q])) &&
    s[i + n] == ':' && IsDigit(s[i + n + 1]) && IsDigit(s[i + n + 2])
  }

  /**
   * TIME_RE anchored at `i`: the end of the token `[0-9]{1,2}:[0-9]{2}` starting there, with two
   * minute digits tried before one.
   */
  function TimeAt(s: seq<char>, i: nat): (r: Option<nat>)
    ensures r.Some? ==> i + 4 <= r.value <= |s| && r.value <= i + 5
    ensures r.Some? ==> IsDigit(s[i]) && s[r.value - 3] == ':'
    ensures r.Some? ==> IsDigit(s[r.value - 2]) && IsDigit(s[r.value - 1])
    ensures r.Some? ==> forall q :: i <= q < r.value - 3 ==> IsDigit(s[q])
  {
    if i + 5 <= |s| && IsDigit(s[i]) && IsDigit(s[i + 1]) && s[i + 2] == ':'
       && IsDigit(s[i + 3]) && IsDigit(s[i + 4]) then
      Some(i + 5)
    else if i + 4 <= |s| && IsDigit(s[i]) && s[i + 1] == ':'
       && IsDigit(s[i + 2]) && IsDigit(s[i + 3]) then
      Some(i + 4)
    else
      None
  }

  /**
   * TIME_RE fails at `i` exactly when neither a one- nor a two-digit-minute token starts there, and
   * `{1,2}` is greedy: when two minute digits fit, the token takes both.
   */
  lemma TimeAtMeaning(s: seq<char>, i: nat)
    ensures TimeAt(s, i).None? <==> !TokenShape(s, i, 1) && !TokenShape(s, i, 2)
    ensures TokenShape(s, i, 2) ==> TimeAt(s, i) == Some(i + 5)
    ensures !TokenShape(s, i, 2) && TokenShape(s, i, 1) ==> TimeAt(s, i) == Some(i + 4)
  {
  }

  /** `s.match(TIME_RE)` searching from position `i`: the leftmost token at or after `i`. */
  function FindTimeFrom(s: seq<char>, i: nat): (r: Option<Span>)
    requires i <= |s|
    decreases |s| - i
    ensures r.Some? ==> i <= r.value.start && TimeAt(s, r.value.start) == Some(r.value.end)
    ensures r.Some? ==> forall q :: i <= q < r.value.start ==> TimeAt(s, q).None?
    ensures r.None? ==> forall q :: i <= q <= |s| ==> TimeAt(s, q).None?
  {
    match TimeAt(s, i)
    case Some(e) => Some(Span(i, e))
    case None => if i == |s| then None else FindTimeFrom(s, i + 1)
  }

  /** `s.match(TIME_RE)`: the leftmost time token of `s`, or `None` for `null`. */
  function FindTime(s: seq<char>): Option<Span> {
    FindTimeFrom(s, 0)
  }

  /**
   * The lazy gap `.*?` followed by TIME_RE, from position `i`: the first token reachable without
   * crossing a line terminator.
   */
  function GapTimeFrom(s: seq<char>, i: nat): (r: Option<Span>)
    requires i <= |s|
    decreases |s| - i
    ensures r.Some? ==> i <= r.value.start && TimeAt(s, r.value.start) == Some(r.value.end)
    ensures r.Some? ==> forall q :: i <= q < r.value.start ==> TimeAt(s, q).None?
    ensures r.Some? ==> forall q :: i <= q < r.value.start ==> !IsLineTerminator(s[q])
    ensures (forall q :: i <= q <= |s| ==> TimeAt(s, q).None?) ==> r.None?
  {
    match TimeAt(s, i)
    case Some(e) => Some(Span(i, e))
    case None =>
      if i == |s| || IsLineTerminator(s[i]) then None else GapTimeFrom(s, i + 1)
  }

  /** The lazy gap finds a token whenever one can be reached without crossing a line terminator. */
  lemma {:induction false} GapTimeFromFinds(s: seq<char>, i: nat, q: nat)
    requires i <= q <= |s| && TimeAt(s, q).Some?
    requires forall p :: i <= p < q ==> !IsLineTerminator(s[p])
    ensures GapTimeFrom(s, i).Some?
    decreases q - i
  {
    if i < q && TimeAt(s, i).None? {
      GapTimeFromFinds(s, i + 1, q);
    }
  }

  /** The text matched by a keyword made of small letters holds no digit. */
  lemma KeywordHasNoDigit(s: seq<char>, i: nat, kw: seq<char>)
    requires KeywordAt(s, i, kw)
    requires forall j :: 0 <= j < |kw| ==> 'a' <= kw[j] <= 'z'
    ensures i + |kw| <= |s| && forall q :: i <= q < i + |kw| ==> !IsDigit(s[q])
  {
    KeywordAtMeaning(s, i, kw);
    forall q | i <= q < i + |kw|
      ensures !IsDigit(s[q])
    {
      assert FoldCase(s[q]) == kw[q - i];
    }
  }

  /** A keyword occurrence is found again in the slice it spans. */
  lemma KeywordInSlice(s: seq<char>, i: nat, kw: seq<char>)
    requires KeywordAt(s, i, kw)
    ensures i + |kw| <= |s| && HasKeyword(s[i..i + |kw|], kw)
  {
    KeywordAtMeaning(s, i, kw);
    KeywordAtMeaning(s[i..i + |kw|], 0, kw);
    HasKeywordMeaning(s[i..i + |kw|], kw);
  }

  /** The end of `(recap|episode)` at `i`, if either keyword starts there. */
  function RecapKeywordEnd(s: seq<char>, i: nat): (r: Option<nat>)
    ensures r.Some? ==> i < r.value <= |s| && MatchesRecap(s[i..r.value])
    ensures r.Some? ==> forall q :: i <= q < r.value ==> !IsDigit(s[q])
  {
    if KeywordAt(s, i, "recap") then
      KeywordInSlice(s, i, "recap");
      KeywordHasNoDigit(s, i, "recap");
      Some(i + 5)
    else if KeywordAt(s, i, "episode") then
      KeywordInSlice(s, i, "episode");
      KeywordHasNoDigit(s, i, "episode");
      Some(i + 7)
    else None
  }

  /** The end of `(TC|title)` at `i`, if either keyword starts there. */
  function TitleKeywordEnd(s: seq<char>, i: nat): (r: Option<nat>)
    ensures r.Some? ==> i < r.value <= |s| && MatchesTitle(s[i..r.value])
    ensures r.Some? ==> forall q :: i <= q < r.value ==> !IsDigit(s[q])
  {
    if KeywordAt(s, i, "tc") then
      KeywordInSlice(s, i, "tc");
      KeywordHasNoDigit(s, i, "tc");
      Some(i + 2)
    else if KeywordAt(s, i, "title") then
      KeywordInSlice(s, i, "title");
      KeywordHasNoDigit(s, i, "title");
      Some(i + 5)
    else None
  }

  /**
   * The group `(recap|episode)` matches at `i` exactly when one of its keywords starts there, and
   * its match ends after that keyword. This unfolds the definition into the group's meaning;
   * `KeywordAtMeaning` says what a keyword at `i` is.
   */
  lemma RecapKeywordEndMeaning(s: seq<char>, i: nat)
    ensures RecapKeywordEnd(s, i).None? <==> !KeywordAt(s, i, "recap") && !KeywordAt(s, i, "episode")
    ensures RecapKeywordEnd(s, i).Some? ==>
      (KeywordAt(s, i, "recap") && RecapKeywordEnd(s, i).value == i + 5) ||
      (KeywordAt(s, i, "episode") && RecapKeywordEnd(s, i).value == i + 7)
  {
  }

  /**
   * The group `(TC|title)` matches at `i` exactly when one of its keywords starts there, ignoring
   * case, and its match ends after that keyword. This unfolds the definition into the group's
   * meaning; `KeywordAtMeaning` says what a keyword at `i` is.
   */
  lemma TitleKeywordEndMeaning(s: seq<char>, i: nat)
    ensures TitleKeywordEnd(s, i).None? <==> !KeywordAt(s, i, "tc") && !KeywordAt(s, i, "title")
    ensures TitleKeywordEnd(s, i).Some? ==>
      (KeywordAt(s, i, "tc") && TitleKeywordEnd(s, i).value == i + 2) ||
      (KeywordAt(s, i, "title") && TitleKeywordEnd(s, i).value == i + 5)
  {
  }

  /** One keyword alternative followed by the lazy gap and a time token: the end of that match. */
  function KeywordThenTime(s: seq<char>, kwEnd: Option<nat>): (r: Option<nat>)
    requires kwEnd.Some? ==> kwEnd.value <= |s|
    ensures r.Some? ==> kwEnd.Some? && GapTimeFrom(s, kwEnd.value).Some?
    ensures r.Some? ==> r.value == GapTimeFrom(s, kwEnd.value).value.end
  {
    match kwEnd
    case None => None
    case Some(k) =>
      match GapTimeFrom(s, k)
      case None => None
      case Some(sp) => Some(sp.end)
  }

  /**
   * COMMENT_SPLIT_RE anchored at `i`: the end of the match of the recap alternative, or failing
   * that of the title-card alternative.
   */
  function SegmentAt(s: seq<char>, i: nat): (r: Option<nat>)
    ensures r.Some? ==> i < r.value <= |s|
  {
    var recap := KeywordThenTime(s, RecapKeywordEnd(s, i));
    if recap.Some? then recap else KeywordThenTime(s, TitleKeywordEnd(s, i))
  }

  /**
   * The alternatives of COMMENT_SPLIT_RE are tried in order at `i`: when the recap alternative
   * matches, its match is taken; a title-card match is found when the recap one fails; and every
   * match found is the match of one of the two alternatives. This unfolds the definition;
   * `SegmentAtFinds` and `GapTimeFromFinds` carry the completeness proof.
   */
  lemma SegmentAtMeaning(s: seq<char>, i: nat)
    ensures KeywordThenTime(s, RecapKeywordEnd(s, i)).Some? ==>
      SegmentAt(s, i) == KeywordThenTime(s, RecapKeywordEnd(s, i))
    ensures KeywordThenTime(s, TitleKeywordEnd(s, i)).Some? ==> SegmentAt(s, i).Some?
    ensures SegmentAt(s, i).Some? ==>
      SegmentAt(s, i) == KeywordThenTime(s, RecapKeywordEnd(s, i)) ||
      SegmentAt(s, i) == KeywordThenTime(s, TitleKeywordEnd(s, i))
  {
  }

  /**
   * Completeness at one position: a keyword of either alternative at `i`, followed by a time token
   * reachable from the keyword's end without a line terminator, makes COMMENT_SPLIT_RE match at `i`.
   */
  lemma SegmentAtFinds(s: seq<char>, i: nat, kwEnd: Option<nat>, q: nat)
    requires kwEnd == RecapKeywordEnd(s, i) || kwEnd == TitleKeywordEnd(s, i)
    requires kwEnd.Some? && kwEnd.value <= q <= |s| && TimeAt(s, q).Some?
    requires forall p :: kwEnd.value <= p < q ==> !IsLineTerminator(s[p])
    ensures KeywordThenTime(s, kwEnd).Some?
    ensures SegmentAt(s, i).Some?
  {
    GapTimeFromFinds(s, kwEnd.value, q);
  }

  /** No match of COMMENT_SPLIT_RE starts in `[a, b)`. */
  predicate NoSegmentIn(s: seq<char>, a: nat, b: nat) {
    forall q :: a <= q < b ==> SegmentAt(s, q).None?
  }

  /** The successive matches of the global COMMENT_SPLIT_RE from position `i`, left to right. */
  function SplitFrom(s: seq<char>, i: nat): (r: seq<Span>)
    requires i <= |s|
    decreases |s| - i
    ensures forall k :: 0 <= k < |r| ==> i <= r[k].start < r[k].end <= |s|
  {
    if i == |s| then []
    else
      match SegmentAt(s, i)
      case Some(e) => [Span(i, e)] + SplitFrom(s, e)
      case None => SplitFrom(s, i + 1)
  }

  /**
   * The global `match` finds nothing from `i` exactly when no match starts at or after `i`, and
   * otherwise its first match is the leftmost one.
   */
  lemma {:induction false} SplitFromLeftmost(s: seq<char>, i: nat)
    requires i <= |s|
    ensures SplitFrom(s, i) == [] <==> NoSegmentIn(s, i, |s|)
    ensures SplitFrom(s, i) != [] ==> NoSegmentIn(s, i, SplitFrom(s, i)[0].start)
    decreases |s| - i
  {
    if i < |s| {
      if SegmentAt(s, i).None? {
        SplitFromLeftmost(s, i + 1);
        var r := SplitFrom(s, i + 1);
        assert SplitFrom(s, i) == r;
        NoSegmentInStep(s, i, |s|);
        if r != [] {
          NoSegmentInStep(s, i, r[0].start);
        }
      } else {
        assert !NoSegmentIn(s, i, |s|);
      }
    }
  }

  lemma NoSegmentInStep(s: seq<char>, i: nat, b: nat)
    requires SegmentAt(s, i).None? && i < b
    ensures NoSegmentIn(s, i, b) <==> NoSegmentIn(s, i + 1, b)
  {
  }

  /**
   * The global flag restarts the scan at the end of each match: after the leftmost match from `i`,
   * the remaining matches are those found from its end.
   */
  lemma {:induction false} SplitFromRestarts(s: seq<char>, i: nat)
    requires i <= |s|
    requires SplitFrom(s, i) != []
    ensures SplitFrom(s, i)[0].end <= |s|
    ensures SplitFrom(s, i)[1..] == SplitFrom(s, SplitFrom(s, i)[0].end)
    decreases |s| - i, 1
  {
    match SegmentAt(s, i)
    case None =>
      SplitFromSkips(s, i);
      SplitFromRestartsAfterSkip(s, i);
    case Some(e) =>
      SplitFromTakes(s, i, e);
  }

  lemma {:induction false} SplitFromRestartsAfterSkip(s: seq<char>, i: nat)
    requires i < |s| && SplitFrom(s, i) == SplitFrom(s, i + 1)
    requires SplitFrom(s, i) != []
    ensures SplitFrom(s, i)[0].end <= |s|
    ensures SplitFrom(s, i)[1..] == SplitFrom(s, SplitFrom(s, i)[0].end)
    decreases |s| - i, 0
  {
    SplitFromRestarts(s, i + 1);
  }

  /** Every span is a match of COMMENT_SPLIT_RE at its start. */
  predicate AllSegments(s: seq<char>, spans: seq<Span>) {
    forall k :: 0 <= k < |spans| ==> SegmentAt(s, spans[k].start) == Some(spans[k].end)
  }

  /** Each span of the global scan is a match of COMMENT_SPLIT_RE. */
  lemma {:induction false} SplitFromSegments(s: seq<char>, i: nat)
    requires i <= |s|
    ensures AllSegments(s, SplitFrom(s, i))
    decreases |s| - i, 1
  {
    if i == |s| {
      assert SplitFrom(s, i) == [];
    } else {
      match SegmentAt(s, i)
      case None =>
        SplitFromSkips(s, i);
        SplitFromSegmentsAfterSkip(s, i);
      case Some(e) =>
        SplitFromTakes(s, i, e);
        SplitFromSegments(s, e);
        SegmentsCons(s, SplitFrom(s, i), SplitFrom(s, e));
    }
  }

  lemma {:induction false} SplitFromSegmentsAfterSkip(s: seq<char>, i: nat)
    requires i < |s| && SplitFrom(s, i) == SplitFrom(s, i + 1)
    ensures AllSegments(s, SplitFrom(s, i))
    decreases |s| - i, 0
  {
    SplitFromSegments(s, i + 1);
  }

  lemma SegmentsCons(s: seq<char>, r: seq<Span>, rest: seq<Span>)
    requires r != [] && r[1..] == rest && SegmentAt(s, r[0].start) == Some(r[0].end)
    requires AllSegments(s, rest)
    ensures AllSegments(s, r)
  {
    forall k | 0 < k < |r|
      ensures SegmentAt(s, r[k].start) == Some(r[k].end)
    {
      assert r[k] == rest[k - 1];
    }
  }

  lemma SplitFromSkips(s: seq<char>, i: nat)
    requires i < |s| && SegmentAt(s, i).None?
    ensures SplitFrom(s, i) == SplitFrom(s, i + 1)
  {
  }

  lemma SplitFromTakes(s: seq<char>, i: nat, e: nat)
    requires i < |s| && SegmentAt(s, i) == Some(e)
    ensures e <= |s| && SplitFrom(s, i)[0] == Span(i, e) && SplitFrom(s, i)[1..] == SplitFrom(s, e)
  {
    var rest := SplitFrom(s, e);
    assert SplitFrom(s, i) == [Span(i, e)] + rest;
  }

  /** The texts of the spans, in order. */
  function Texts(s: seq<char>, spans: seq<Span>): (r: seq<seq<char>>)
    requires forall k :: 0 <= k < |spans| ==> spans[k].start <= spans[k].end <= |s|
    ensures |r| == |spans|
    ensures forall k :: 0 <= k < |spans| ==> r[k] == s[spans[k].start..spans[k].end]
  {
    if spans == [] then [] else [s[spans[0].start..spans[0].end]] + Texts(s, spans[1..])
  }

  /** `s.match(COMMENT_SPLIT_RE)` as a list of matched strings; the empty list stands for `null`. */
  function Split(s: seq<char>): seq<seq<char>> {
    Texts(s, SplitFrom(s, 0))
  }

  /** `match` returns `null` exactly when COMMENT_SPLIT_RE matches at no position of the comment. */
  lemma SplitIsNull(s: seq<char>)
    ensures Split(s) == [] <==> NoSegmentIn(s, 0, |s|)
  {
    SplitFromLeftmost(s, 0);
  }

  /** The leftmost-token characterisation pins down what the search returns. */
  lemma FindTimeFromIs(s: seq<char>, i: nat, sp: Span)
    requires i <= sp.start <= |s|
    requires TimeAt(s, sp.start) == Some(sp.end)
    requires forall q :: i <= q < sp.start ==> TimeAt(s, q).None?
    ensures FindTimeFrom(s, i) == Some(sp)
  {
  }

  /** A token inside a slice is a token of the whole string, with the same extent. */
  lemma TimeAtSliceInner(s: seq<char>, a: nat, b: nat, q: nat)
    requires a <= b <= |s| && q <= b - a
    requires TimeAt(s[a..b], q).Some?
    ensures TimeAt(s, a + q) == Some(a + TimeAt(s[a..b], q).value)
  {
  }

  /** A token of the whole string that lies inside a slice is a token of the slice. */
  lemma TimeAtSliceOuter(s: seq<char>, a: nat, b: nat, p: nat, e: nat)
    requires a <= p && e <= b <= |s|
    requires TimeAt(s, p) == Some(e)
    ensures TimeAt(s[a..b], p - a) == Some(e - a)
  {
  }

  /** A keyword found in a prefix of `s` is found in `s`. */
  lemma KeywordInLonger(s: seq<char>, t: seq<char>, kw: seq<char>)
    requires |t| <= |s| && t == s[..|t|]
    ensures HasKeyword(t, kw) ==> HasKeyword(s, kw)
  {
    HasKeywordMeaning(t, kw);
    HasKeywordMeaning(s, kw);
    if HasKeyword(t, kw) {
      var i :| 0 <= i <= |t| && KeywordAt(t, i, kw);
      KeywordAtMeaning(t, i, kw);
      KeywordAtMeaning(s, i, kw);
      assert KeywordAt(s, i, kw);
    }
  }

  /**
   * When no digit lies in `[i, k)` and the lazy gap from `k` ends with the token `tok`, searching
   * `s[i..tok.end]` with TIME_RE finds that token.
   */
  lemma GapTokenIsFirst(s: seq<char>, i: nat, k: nat, tok: Span)
    requires i <= k <= |s|
    requires forall q :: i <= q < k ==> !IsDigit(s[q])
    requires GapTimeFrom(s, k) == Some(tok)
    ensures FindTime(s[i..tok.end]) == Some(Span(tok.start - i, tok.end - i))
  {
    var seg := s[i..tok.end];
    forall q | 0 <= q < tok.start - i
      ensures TimeAt(seg, q).None?
    {
      if TimeAt(seg, q).Some? {
        TimeAtSliceInner(s, i, tok.end, q);
      }
    }
    TimeAtSliceOuter(s, i, tok.end, tok.start, tok.end);
    FindTimeFromIs(seg, 0, Span(tok.start - i, tok.end - i));
  }

  /**
   * Every match of COMMENT_SPLIT_RE names a keyword of its own alternative and ends with a time
   * token; searching the matched text again with TIME_RE finds exactly that final token.
   */
  lemma SegmentEndsWithToken(s: seq<char>, i: nat, e: nat)
    requires SegmentAt(s, i) == Some(e)
    ensures i < e <= |s|
    ensures MatchesRecap(s[i..e]) || MatchesTitle(s[i..e])
    ensures FindTime(s[i..e]).Some? && FindTime(s[i..e]).value.end == e - i
  {
    var kwEnd := RecapKeywordEnd(s, i);
    if KeywordThenTime(s, kwEnd).None? {
      kwEnd := TitleKeywordEnd(s, i);
      KeywordInLonger(s[i..e], s[i..kwEnd.value], "tc");
      KeywordInLonger(s[i..e], s[i..kwEnd.value], "title");
    } else {
      KeywordInLonger(s[i..e], s[i..kwEnd.value], "recap");
      KeywordInLonger(s[i..e], s[i..kwEnd.value], "episode");
    }
    GapTokenIsFirst(s, i, kwEnd.value, GapTimeFrom(s, kwEnd.value).value);
  }

  /** What `SegmentEndsWithToken` says of each match, for the list `Split` returns. */
  lemma SplitSegmentsEndWithToken(s: seq<char>)
    ensures forall k :: 0 <= k < |Split(s)| ==>
      (MatchesRecap(Split(s)[k]) || MatchesTitle(Split(s)[k])) &&
      FindTime(Split(s)[k]).Some? && FindTime(Split(s)[k]).value.end == |Split(s)[k]|
  {
    var spans := SplitFrom(s, 0);
    SplitFromSegments(s, 0);
    forall k | 0 <= k < |spans|
      ensures (MatchesRecap(Split(s)[k]) || MatchesTitle(Split(s)[k])) &&
        FindTime(Split(s)[k]).Some? && FindTime(Split(s)[k]).value.end == |Split(s)[k]|
    {
      SegmentEndsWithToken(s, spans[k].start, spans[k].end);
    }
  }

  /** No keyword of either alternative of COMMENT_SPLIT_RE starts at `i`. */
  predicate NoKeywordAt(s: seq<char>, i: nat) {
    RecapKeywordEnd(s, i).None? && TitleKeywordEnd(s, i).None?
  }

  lemma {:induction false} NoSegmentsFrom(s: seq<char>, i: nat)
    requires i <= |s|
    requires forall p, q :: i <= p <= q <= |s| && TimeAt(s, q).Some? ==> NoKeywordAt(s, p)
    ensures SplitFrom(s, i) == []
    decreases |s| - i
  {
    if i < |s| {
      var r := RecapKeywordEnd(s, i);
      if r.Some? {
        forall q | r.value <= q <= |s|
          ensures TimeAt(s, q).None?
        {
          assert TimeAt(s, q).Some? ==> NoKeywordAt(s, i);
        }
      }
      var t := TitleKeywordEnd(s, i);
      if t.Some? {
        forall q | t.value <= q <= |s|
          ensures TimeAt(s, q).None?
        {
          assert TimeAt(s, q).Some? ==> NoKeywordAt(s, i);
        }
      }
      NoSegmentsFrom(s, i + 1);
    }
  }

  /**
   * When every keyword occurrence comes after every time token (for instance "1:00 recap title"),
   * COMMENT_SPLIT_RE finds no match and `match` returns `null`.
   */
  lemma NoSegmentsWhenTokensPrecedeKeywords(s: seq<char>)
    requires forall p, q :: 0 <= p <= q <= |s| && TimeAt(s, q).Some? ==> NoKeywordAt(s, p)
    ensures Split(s) == []
  {
    NoSegmentsFrom(s, 0);
  }
}
