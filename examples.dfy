/**
 * Worked inputs for the scanners and for `create`, each proved from the definitions: the
 * dual-timestamp comment, a single-keyword comment whose own time is ignored, a substring hit of
 * the title-card keyword and a comment that makes `create` throw.
 */
module Examples {
  import opened Wrappers
  import opened Patterns
  import opened TimeParse
  import opened Attributes

  const Dual := "recap 1:00 then TC 5:00"

  lemma DualRecapKeyword()
    ensures RecapKeywordEnd(Dual, 0) == Some(5)
  {
    assert KeywordAt(Dual, 0, "recap");
  }

  lemma DualFirstGap()
    ensures GapTimeFrom(Dual, 5) == Some(Span(6, 10))
  {
    assert TimeAt(Dual, 5).None?;
    assert TimeAt(Dual, 6) == Some(10);
  }

  lemma DualFirstSegment()
    ensures SegmentAt(Dual, 0) == Some(10)
  {
    DualRecapKeyword();
    DualFirstGap();
    assert KeywordThenTime(Dual, Some(5)) == Some(10);
  }

  lemma DualSecondSegment()
    ensures SegmentAt(Dual, 16) == Some(23)
  {
    assert RecapKeywordEnd(Dual, 16) == None;
    assert KeywordAt(Dual, 16, "tc");
    assert TitleKeywordEnd(Dual, 16) == Some(18);
    assert GapTimeFrom(Dual, 18) == Some(Span(19, 23));
    assert KeywordThenTime(Dual, Some(18)) == Some(23);
  }

  lemma DualNoSegmentBetween(i: nat)
    requires 10 <= i < 16
    ensures SegmentAt(Dual, i) == None
  {
    assert RecapKeywordEnd(Dual, i) == None;
    assert TitleKeywordEnd(Dual, i) == None;
  }

  lemma DualSpansFrom10()
    ensures SplitFrom(Dual, 10) == [Span(16, 23)]
  {
    DualSecondSegment();
    assert SplitFrom(Dual, 23) == [];
    assert SplitFrom(Dual, 16) == [Span(16, 23)];
    DualNoSegmentBetween(15);
    DualNoSegmentBetween(14);
    DualNoSegmentBetween(13);
    DualNoSegmentBetween(12);
    DualNoSegmentBetween(11);
    DualNoSegmentBetween(10);
    assert SplitFrom(Dual, 15) == [Span(16, 23)];
    assert SplitFrom(Dual, 14) == [Span(16, 23)];
    assert SplitFrom(Dual, 13) == [Span(16, 23)];
    assert SplitFrom(Dual, 12) == [Span(16, 23)];
    assert SplitFrom(Dual, 11) == [Span(16, 23)];
  }

  lemma DualSpans()
    ensures Split(Dual) == Texts(Dual, [Span(0, 10), Span(16, 23)])
  {
    DualFirstSegment();
    DualSpansFrom10();
  }

  lemma DualTexts()
    ensures Texts(Dual, [Span(0, 10), Span(16, 23)]) == ["recap 1:00", "TC 5:00"]
  {
    var t := Texts(Dual, [Span(0, 10), Span(16, 23)]);
    assert t[0] == Dual[0..10] == "recap 1:00";
    assert t[1] == Dual[16..23] == "TC 5:00";
  }

  /** COMMENT_SPLIT_RE cuts the dual comment into one segment per keyword. */
  lemma DualSplit()
    ensures Split(Dual) == ["recap 1:00", "TC 5:00"]
  {
    DualSpans();
    DualTexts();
  }

  lemma Token100()
    ensures IsToken("1:00") && TokenStamp("1:00") == Stamp(60, "1:00")
  {
    var token := "1:00";
    assert TokenShape(token, 0, 1) && !TokenShape(token, 0, 2);
    assert IsToken(token);
    OneDigitTokenStamp(token);
    assert DigitValue(token[0]) == 1;
    assert DigitValue(token[2]) == 0 && DigitValue(token[3]) == 0;
    assert token[2..] == "00";
    assert Decimal(1) == "1";
    assert "1" + ":" + "00" == "1:00";
  }

  lemma Token500()
    ensures IsToken("5:00") && TokenStamp("5:00") == Stamp(300, "5:00")
  {
    var token := "5:00";
    assert TokenShape(token, 0, 1) && !TokenShape(token, 0, 2);
    assert IsToken(token);
    OneDigitTokenStamp(token);
    assert DigitValue(token[0]) == 5;
    assert DigitValue(token[2]) == 0 && DigitValue(token[3]) == 0;
    assert token[2..] == "00";
    assert Decimal(5) == "5";
    assert "5" + ":" + "00" == "5:00";
  }

  // The two segment lemmas take their literal as a parameter fixed by `requires`: stated directly
  // on the literal, the verifier would evaluate `CalculateTime` on it in full, which is far slower.

  lemma RecapSegmentStamp(s: string)
    requires s == "recap 1:00"
    ensures CalculateTime(s) == Some(Stamp(60, "1:00"))
  {
    assert TimeAt(s, 6) == Some(10);
    CalculateTimeAt(s, 6, 10);
    SliceIs(s, 6, 10, "1:00");
    Token100();
  }

  lemma TitleSegmentStamp(s: string)
    requires s == "TC 5:00"
    ensures CalculateTime(s) == Some(Stamp(300, "5:00"))
  {
    assert TimeAt(s, 3) == Some(7);
    CalculateTimeAt(s, 3, 7);
    SliceIs(s, 3, 7, "5:00");
    Token500();
  }

  lemma DualMentions()
    ensures Mentions("recap 1:00", Recap) && !Mentions("recap 1:00", TitleCard)
    ensures !Mentions("TC 5:00", Recap) && Mentions("TC 5:00", TitleCard)
  {
    assert KeywordAt("recap 1:00", 0, "recap");
    NoKeywordWithoutFirstLetter("recap 1:00", "tc");
    NoKeywordWithoutFirstLetter("recap 1:00", "title");
    assert KeywordAt("TC 5:00", 0, "tc");
    NoKeywordWithoutFirstLetter("TC 5:00", "recap");
    NoKeywordWithoutFirstLetter("TC 5:00", "episode");
  }

  lemma DualKeywords()
    ensures MatchesRecap(Dual) && MatchesTitle(Dual)
  {
    assert KeywordAt(Dual, 0, "recap");
    assert KeywordAt(Dual, 16, "tc");
    HasKeywordMeaning(Dual, "recap");
    HasKeywordMeaning(Dual, "tc");
  }

  /**
   * "recap 1:00 then TC 5:00" gives a recap record at 60 seconds and a title-card record at 300
   * seconds, whatever time the caller passed.
   */
  lemma DualTimestampComment()
    ensures Classify(Dual, 0, "0:00") ==
      Ok([NewCandidate(60, "1:00", Recap), NewCandidate(300, "5:00", TitleCard)])
  {
    DualKeywords();
    DualSplit();
    DualMentions();
    RecapSegmentStamp("recap 1:00");
    TitleSegmentStamp("TC 5:00");
    TwoSegments(Dual, 0, "0:00", "recap 1:00", "TC 5:00", Stamp(60, "1:00"), Stamp(300, "5:00"));
  }

  /** A comment with both keyword kinds cut into a recap segment followed by a title segment. */
  lemma TwoSegments(comment: string, time: int, timeString: string,
                    first: seq<char>, second: seq<char>, a: Stamp, b: Stamp)
    requires MatchesRecap(comment) && MatchesTitle(comment)
    requires Split(comment) == [first, second]
    requires Mentions(first, Recap) && !Mentions(second, Recap) && Mentions(second, TitleCard)
    requires CalculateTime(first) == Some(a) && CalculateTime(second) == Some(b)
    ensures Classify(comment, time, timeString) ==
      Ok([NewCandidate(a.time, a.timeString, Recap), NewCandidate(b.time, b.timeString, TitleCard)])
  {
    var segments := Split(comment);
    var seed := Stamp(time, timeString);
    LastMentionIs(segments, Recap, 0);
    LastMentionIs(segments, TitleCard, 1);
    assert AllTimed(segments);
    assert FinalStamp(segments, Recap, seed) == a;
    assert FinalStamp(segments, TitleCard, seed) == b;
  }

  /**
   * With one keyword kind, the caller's time is kept even though the comment holds another one:
   * "recap at 1:30" with 999 seconds gives one recap record at 999 seconds.
   */
  lemma SingleKeywordKeepsCallerTime()
    ensures Classify("recap at 1:30", 999, "bad") == Ok([NewCandidate(999, "bad", Recap)])
  {
    var s := "recap at 1:30";
    assert KeywordAt(s, 0, "recap");
    HasKeywordMeaning(s, "recap");
    NoKeywordWithoutFirstPair(s, "tc");
    NoKeywordWithoutFirstPair(s, "title");
    ClassifyOneKind(s, 999, "bad");
  }

  /** The title-card keyword is a substring test: "watch this" is a title-card comment. */
  lemma WatchIsTitleCard()
    ensures Classify("watch this", 60, "1:00") == Ok([NewCandidate(60, "1:00", TitleCard)])
  {
    var s := "watch this";
    assert KeywordAt(s, 2, "tc");
    HasKeywordMeaning(s, "tc");
    NoKeywordWithoutFirstLetter(s, "recap");
    NoKeywordWithoutFirstLetter(s, "episode");
    ClassifyOneKind(s, 60, "1:00");
  }

  const Early := "1:00 recap title"

  lemma EarlyTokenOnlyAtStart(q: nat)
    requires 0 < q <= |Early|
    ensures TimeAt(Early, q).None?
  {
  }

  /**
   * Both keywords but the only time token before them: COMMENT_SPLIT_RE finds nothing and
   * `create` throws.
   */
  lemma TokenBeforeKeywordsThrows()
    ensures Classify(Early, 60, "1:00") == Err(NoSplitMatch)
  {
    assert KeywordAt(Early, 5, "recap");
    HasKeywordMeaning(Early, "recap");
    assert KeywordAt(Early, 11, "title");
    HasKeywordMeaning(Early, "title");
    assert NoKeywordAt(Early, 0);
    forall p, q | 0 <= p <= q <= |Early| && TimeAt(Early, q).Some?
      ensures NoKeywordAt(Early, p)
    {
      if q > 0 {
        EarlyTokenOnlyAtStart(q);
      }
    }
    NoSegmentsWhenTokensPrecedeKeywords(Early);
  }
}
