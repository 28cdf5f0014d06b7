/**
 * The `CommentAttributes` record of the player script: its constructor, `#getSkipText`, and the
 * static `create`, which classifies one comment and, when it names both a recap and a title card,
 * reads a separate time for each from the comment's segments.
 */
module Attributes {
  import opened Wrappers
  import opened Patterns
  import opened TimeParse

  /** `CommentAttributesType`: 'recap', 'titlecard' or 'generic'. */
  datatype Kind = Recap | TitleCard | Generic

  /** A `CommentAttributes` instance. Its fields are set once, by the constructor. */
  datatype Candidate = Candidate(
    time: int,
    timeString: string,
    kind: Kind,
    skipOthers: bool,
    showMe: bool,
    skipText: string)

  /** `#getSkipText`: the button label for a record of kind `kind`. */
  function SkipText(kind: Kind, timeString: string): (r: string)
    ensures var close := if kind == Generic then 0 else 1;
      |r| >= |timeString| + close && r[|r| - close - |timeString|..|r| - close] == timeString
    ensures kind != Generic ==> r[|r| - 1] == ')'
  {
    match kind
    case TitleCard => "Skip to title (" + timeString + ")"
    case Recap => "Skip recap (" + timeString + ")"
    case Generic => "Skip to " + timeString
  }

  /** The derived fields agree with the kind and the label, as the constructor sets them. */
  predicate WellFormed(c: Candidate) {
    c.skipOthers == (c.kind != Generic) && c.showMe == c.skipOthers &&
    c.skipText == SkipText(c.kind, c.timeString)
  }

  /** `new CommentAttributes(time, timeString, type)`. */
  function NewCandidate(time: int, timeString: string, kind: Kind): (c: Candidate)
    ensures WellFormed(c)
    ensures c.time == time && c.timeString == timeString && c.kind == kind
    ensures c.skipOthers == c.showMe == (kind != Generic)
  {
    var skipOthers := kind != Generic;
    Candidate(time, timeString, kind, skipOthers, skipOthers, SkipText(kind, timeString))
  }

  /** Reads a button text back into the kind and the label it was made from. */
  function DecodeSkipText(text: string): Option<(Kind, string)> {
    if |text| >= 16 && text[..15] == "Skip to title (" && text[|text| - 1] == ')' then
      Some((TitleCard, text[15..|text| - 1]))
    else if |text| >= 13 && text[..12] == "Skip recap (" && text[|text| - 1] == ')' then
      Some((Recap, text[12..|text| - 1]))
    else if |text| >= 8 && text[..8] == "Skip to " then
      Some((Generic, text[8..]))
    else
      None
  }

  /** For a label free of '(', the button text determines the kind and the label. */
  lemma SkipTextRoundTrip(kind: Kind, timeString: string)
    requires '(' !in timeString
    ensures DecodeSkipText(SkipText(kind, timeString)) == Some((kind, timeString))
  {
    var text := SkipText(kind, timeString);
    match kind
    case TitleCard =>
      assert text[..15] == "Skip to title (";
      assert text[15..|text| - 1] == timeString;
    case Recap =>
      if |text| >= 16 {
        assert text[..15] != "Skip to title (" by { assert text[5] == 'r'; }
      }
      assert text[..12] == "Skip recap (";
      assert text[12..|text| - 1] == timeString;
    case Generic =>
      if |text| >= 16 {
        assert text[..15] != "Skip to title (" by { assert text[14] == timeString[6] != '('; }
      }
      if |text| >= 13 {
        assert text[..12] != "Skip recap (" by { assert text[5] == 't'; }
      }
      assert text[..8] == "Skip to ";
      assert text[8..] == timeString;
  }

  /** Two records whose labels are free of '(' show the same text only if kind and label agree. */
  lemma SkipTextInjective(k1: Kind, a: string, k2: Kind, b: string)
    requires '(' !in a && '(' !in b
    requires SkipText(k1, a) == SkipText(k2, b)
    ensures k1 == k2 && a == b
  {
    SkipTextRoundTrip(k1, a);
    SkipTextRoundTrip(k2, b);
  }

  /**
   * The condition on '(' is needed: a generic record labelled "title (x)" and a title-card record
   * labelled "x" show the same text.
   */
  lemma SkipTextCollision()
    ensures SkipText(Generic, "title (x)") == SkipText(TitleCard, "x")
  {
  }

  /** A label made by `calculateTime` holds only digits and one colon, so no '('. */
  lemma ComputedLabelHasNoParen(text: string)
    requires CalculateTime(text).Some?
    ensures '(' !in CalculateTime(text).value.timeString
  {
    CalculateTimeMeaning(text);
    var sp := FindTime(text).value;
    var md := text[sp.start..sp.end - 3];
    var sd := text[sp.end - 2..sp.end];
    DigitsLabelHasNoParen(Decimal(ParseDecimal(md)), sd);
  }

  lemma DigitsLabelHasNoParen(dm: string, sd: string)
    requires AllDigits(dm) && AllDigits(sd)
    ensures '(' !in dm + ":" + sd
  {
    var shown := dm + ":" + sd;
    forall k | 0 <= k < |shown|
      ensures shown[k] != '('
    {
      if k < |dm| {
        assert shown[k] == dm[k];
      } else if k > |dm| {
        assert shown[k] == sd[k - |dm| - 1];
      }
    }
  }

  /** Why `create` can fail: each case is an exception in the source. */
  datatype CreateError =
    | NoSplitMatch      // `comment.match(COMMENT_SPLIT_RE)` is null, so `.forEach` throws
    | NoTimeInSegment   // `partial.match(TIME_RE)` is null, so `[0]` throws

  /** The keyword test a segment must pass to update the time of kind `kind`. */
  predicate Mentions(segment: seq<char>, kind: Kind) {
    match kind
    case Recap => MatchesRecap(segment)
    case TitleCard => MatchesTitle(segment)
    case Generic => false
  }

  /** The index of the last segment that mentions `kind`, if any. */
  function LastMention(segments: seq<seq<char>>, kind: Kind): (r: Option<nat>)
    ensures r.Some? ==> r.value < |segments| && Mentions(segments[r.value], kind)
    ensures r.Some? ==> forall j :: r.value < j < |segments| ==> !Mentions(segments[j], kind)
    ensures r.None? ==> forall j :: 0 <= j < |segments| ==> !Mentions(segments[j], kind)
  {
    if segments == [] then None
    else if Mentions(segments[|segments| - 1], kind) then Some(|segments| - 1)
    else LastMention(segments[..|segments| - 1], kind)
  }

  /** The last mentioning segment is the one after which no segment mentions the kind. */
  lemma LastMentionIs(segments: seq<seq<char>>, kind: Kind, j: nat)
    requires j < |segments| && Mentions(segments[j], kind)
    requires forall k :: j < k < |segments| ==> !Mentions(segments[k], kind)
    ensures LastMention(segments, kind) == Some(j)
  {
  }

  /** Every segment carries a time token. */
  predicate AllTimed(segments: seq<seq<char>>) {
    forall j :: 0 <= j < |segments| ==> CalculateTime(segments[j]).Some?
  }

  /** The time of kind `kind` after all segments: that of its last segment, else the seed. */
  function FinalStamp(segments: seq<seq<char>>, kind: Kind, seed: Stamp): Stamp
    requires AllTimed(segments)
  {
    match LastMention(segments, kind)
    case None => seed
    case Some(j) => CalculateTime(segments[j]).value
  }

  /**
   * What `CommentAttributes.create(comment, time, timeString)` returns, stated declaratively.
   * With at most one keyword kind, one record with the caller's time. With both, the comment is
   * cut into COMMENT_SPLIT_RE segments and each kind takes the time of the last segment that
   * mentions it, the caller's time when none does.
   */
  function Classify(comment: string, time: int, timeString: string)
    : Result<seq<Candidate>, CreateError>
  {
    var recap := MatchesRecap(comment);
    var titlecard := MatchesTitle(comment);
    if recap && titlecard then
      var segments := Split(comment);
      if segments == [] then Err(NoSplitMatch)
      else if !AllTimed(segments) then Err(NoTimeInSegment)
      else
        var seed := Stamp(time, timeString);
        var r := FinalStamp(segments, Recap, seed);
        var t := FinalStamp(segments, TitleCard, seed);
        Ok([NewCandidate(r.time, r.timeString, Recap), NewCandidate(t.time, t.timeString, TitleCard)])
    else
      var kind := if recap then Recap else if titlecard then TitleCard else Generic;
      Ok([NewCandidate(time, timeString, kind)])
  }

  /** Processing one more segment: it overwrites the time of each kind it mentions. */
  lemma FinalStampStep(segments: seq<seq<char>>, k: nat, seed: Stamp)
    requires k < |segments| && AllTimed(segments[..k]) && CalculateTime(segments[k]).Some?
    ensures AllTimed(segments[..k + 1])
    ensures forall kind ::
      FinalStamp(segments[..k + 1], kind, seed) ==
        (if Mentions(segments[k], kind) then CalculateTime(segments[k]).value
         else FinalStamp(segments[..k], kind, seed))
  {
    assert segments[..k + 1][..k] == segments[..k];
  }

  /** The mutable `split` record of `create`. */
  datatype SplitRecord = SplitRecord(
    recapTime: int,
    recapTimeString: string,
    titlecardTime: int,
    titlecardTimeString: string)

  /**
   * The `forEach` over the segments: the `split` record starts at `seed` for both kinds, and every
   * segment, in order, overwrites the fields of each kind it mentions with its own time. A segment
   * without a time token would make `[0]` throw.
   */
  method ApplySegments(segments: seq<seq<char>>, seed: Stamp)
    returns (r: Result<SplitRecord, CreateError>)
    ensures r.Err? <==> !AllTimed(segments)
    ensures r.Err? ==> r.error == NoTimeInSegment
    ensures r.Ok? ==>
      Stamp(r.value.recapTime, r.value.recapTimeString) == FinalStamp(segments, Recap, seed) &&
      Stamp(r.value.titlecardTime, r.value.titlecardTimeString) == FinalStamp(segments, TitleCard, seed)
  {
    var split := SplitRecord(seed.time, seed.timeString, seed.time, seed.timeString);
    var k := 0;
    while k < |segments|
      invariant 0 <= k <= |segments|
      invariant AllTimed(segments[..k])
      invariant Stamp(split.recapTime, split.recapTimeString) == FinalStamp(segments[..k], Recap, seed)
      invariant Stamp(split.titlecardTime, split.titlecardTimeString)
        == FinalStamp(segments[..k], TitleCard, seed)
    {
      var partial := segments[k];
      var found := FindTime(partial);
      if found.None? {
        assert CalculateTime(segments[k]).None?;
        return Err(NoTimeInSegment);
      }
      var ts := partial[found.value.start..found.value.end];
      TokenReparses(partial);
      CalculateTimeMeaning(partial);
      FinalStampStep(segments, k, seed);
      if MatchesRecap(partial) {
        var stamp := CalculateTime(ts).value;
        split := split.(recapTime := stamp.time, recapTimeString := stamp.timeString);
      }
      if MatchesTitle(partial) {
        var stamp := CalculateTime(ts).value;
        split := split.(titlecardTime := stamp.time, titlecardTimeString := stamp.timeString);
      }
      k := k + 1;
    }
    assert segments[..k] == segments;
    r := Ok(split);
  }

  /**
   * `CommentAttributes.create`, step by step: with both keyword kinds, the comment is cut by
   * COMMENT_SPLIT_RE and `ApplySegments` runs the `forEach`; otherwise one record keeps the
   * caller's time.
   */
  method Create(comment: string, time: int, timeString: string)
    returns (r: Result<seq<Candidate>, CreateError>)
    ensures r == Classify(comment, time, timeString)
  {
    var recap := MatchesRecap(comment);
    var titlecard := MatchesTitle(comment);
    if recap && titlecard {
      var segments := Split(comment);
      if segments == [] {
        return Err(NoSplitMatch);
      }
      var applied := ApplySegments(segments, Stamp(time, timeString));
      if applied.Err? {
        return Err(applied.error);
      }
      var split := applied.value;
      r := Ok([
        NewCandidate(split.recapTime, split.recapTimeString, Recap),
        NewCandidate(split.titlecardTime, split.titlecardTimeString, TitleCard)
      ]);
    } else {
      var kind := if recap then Recap else if titlecard then TitleCard else Generic;
      r := Ok([NewCandidate(time, timeString, kind)]);
    }
  }

  /** Every COMMENT_SPLIT_RE segment carries a time token, so `create` never fails on `[0]`. */
  lemma SegmentsAreTimed(comment: string)
    ensures AllTimed(Split(comment))
  {
    SplitSegmentsEndWithToken(comment);
    forall j | 0 <= j < |Split(comment)|
      ensures CalculateTime(Split(comment)[j]).Some?
    {
      CalculateTimeMeaning(Split(comment)[j]);
    }
  }

  /**
   * `create` throws exactly when the comment names both keyword kinds and COMMENT_SPLIT_RE finds
   * no segment; the exception is then the `forEach` on `null`.
   */
  lemma ClassifyFails(comment: string, time: int, timeString: string)
    ensures Classify(comment, time, timeString).Err? <==>
      MatchesRecap(comment) && MatchesTitle(comment) && Split(comment) == []
    ensures Classify(comment, time, timeString).Err? ==>
      Classify(comment, time, timeString).error == NoSplitMatch
  {
    SegmentsAreTimed(comment);
  }

  /**
   * With at most one keyword kind, `create` returns one record with the caller's time and label,
   * whatever time the comment itself contains; its kind is recap if the recap keyword matches,
   * else title card if the title keyword matches, else generic.
   */
  lemma ClassifyOneKind(comment: string, time: int, timeString: string)
    requires !(MatchesRecap(comment) && MatchesTitle(comment))
    ensures Classify(comment, time, timeString).Ok?
    ensures var cs := Classify(comment, time, timeString).value;
      |cs| == 1 && WellFormed(cs[0]) &&
      cs[0].time == time && cs[0].timeString == timeString &&
      (cs[0].kind == Recap <==> MatchesRecap(comment)) &&
      (cs[0].kind == TitleCard <==> MatchesTitle(comment)) &&
      (cs[0].kind == Generic <==> !MatchesRecap(comment) && !MatchesTitle(comment))
  {
  }

  /**
   * The record of kind `c.kind` carries the time of the last segment mentioning that kind, or the
   * seed when no segment does.
   */
  predicate TimeOfLastMention(c: Candidate, segments: seq<seq<char>>, seed: Stamp) {
    match LastMention(segments, c.kind)
    case None => Stamp(c.time, c.timeString) == seed
    case Some(j) =>
      CalculateTime(segments[j]) == Some(Stamp(c.time, c.timeString)) && 0 <= c.time <= MaxTokenTime
  }

  lemma FinalStampMeaning(segments: seq<seq<char>>, kind: Kind, seed: Stamp)
    requires AllTimed(segments)
    ensures var st := FinalStamp(segments, kind, seed);
      TimeOfLastMention(NewCandidate(st.time, st.timeString, kind), segments, seed)
  {
    match LastMention(segments, kind)
    case None =>
    case Some(j) => CalculateTimeMeaning(segments[j]);
  }

  /**
   * With both keyword kinds and at least one segment, `create` returns a recap record and then a
   * title-card record. Each takes the time of the last segment that mentions its keyword, or the
   * caller's time when no segment does; a time read from a segment lies within 0..99:99.
   */
  lemma ClassifyBothKinds(comment: string, time: int, timeString: string)
    requires MatchesRecap(comment) && MatchesTitle(comment) && Split(comment) != []
    ensures Classify(comment, time, timeString).Ok?
    ensures var cs := Classify(comment, time, timeString).value;
      var segments := Split(comment);
      var seed := Stamp(time, timeString);
      |cs| == 2 && cs[0].kind == Recap && cs[1].kind == TitleCard &&
      WellFormed(cs[0]) && WellFormed(cs[1]) &&
      TimeOfLastMention(cs[0], segments, seed) && TimeOfLastMention(cs[1], segments, seed)
  {
    var segments := Split(comment);
    var seed := Stamp(time, timeString);
    SegmentsAreTimed(comment);
    FinalStampMeaning(segments, Recap, seed);
    FinalStampMeaning(segments, TitleCard, seed);
  }

  /** A segment that names both keywords, and is the last to name either, sets both times. */
  lemma SharedSegmentSetsBoth(comment: string, time: int, timeString: string, j: nat)
    requires MatchesRecap(comment) && MatchesTitle(comment)
    requires j < |Split(comment)|
    requires Mentions(Split(comment)[j], Recap) && Mentions(Split(comment)[j], TitleCard)
    requires forall k :: j < k < |Split(comment)| ==>
      !Mentions(Split(comment)[k], Recap) && !Mentions(Split(comment)[k], TitleCard)
    ensures Classify(comment, time, timeString).Ok?
    ensures var cs := Classify(comment, time, timeString).value;
      |cs| == 2 && cs[0].time == cs[1].time && cs[0].timeString == cs[1].timeString
  {
    var segments := Split(comment);
    ClassifyBothKinds(comment, time, timeString);
    LastMentionIs(segments, Recap, j);
    LastMentionIs(segments, TitleCard, j);
    var cs := Classify(comment, time, timeString).value;
    assert CalculateTime(segments[j]) == Some(Stamp(cs[0].time, cs[0].timeString));
    assert CalculateTime(segments[j]) == Some(Stamp(cs[1].time, cs[1].timeString));
  }

  /** Every record `create` returns has its derived fields set as the constructor sets them. */
  lemma ClassifyWellFormed(comment: string, time: int, timeString: string)
    requires Classify(comment, time, timeString).Ok?
    ensures var cs := Classify(comment, time, timeString).value;
      1 <= |cs| <= 2 && forall c :: c in cs ==> WellFormed(c)
  {
    SegmentsAreTimed(comment);
  }
}
