/**
 * `calculateTime` of the player script: the leftmost `m:ss` or `mm:ss` token of a string, as a
 * number of seconds and a normalised display label.
 */
module TimeParse {
  import opened Wrappers
  import opened Patterns

  /** What `calculateTime` returns: `time` in seconds and the label `timeString`. */
  datatype Stamp = Stamp(time: int, timeString: string)

  /** The largest time a token can denote: 99 minutes and 99 seconds. */
  const MaxTokenTime := 60 * 99 + 99

  predicate AllDigits(t: seq<char>) {
    forall k :: 0 <= k < |t| ==> IsDigit(t[k])
  }

  function DigitValue(c: char): (d: nat)
    requires IsDigit(c)
    ensures d < 10
  {
    c as int - '0' as int
  }

  function DigitChar(d: nat): (c: char)
    requires d < 10
    ensures IsDigit(c) && DigitValue(c) == d
  {
    ('0' as int + d) as char
  }

  /**
   * `parseInt(t, 10)` on a non-empty string made only of decimal digits. The empty string, where
   * `parseInt` gives `NaN`, gives 0 here; no caller passes it, since token parts have one or two
   * digits.
   */
  function ParseDecimal(t: seq<char>): nat
    requires AllDigits(t)
  {
    if t == [] then 0 else 10 * ParseDecimal(t[..|t| - 1]) + DigitValue(t[|t| - 1])
  }

  /** `n.toString()`: the decimal digits of `n`, with no leading zero. */
  function Decimal(n: nat): (r: string)
    ensures 1 <= |r| && AllDigits(r)
    ensures r[0] == '0' ==> n == 0
    ensures ParseDecimal(r) == n
    ensures |r| == 1 <==> n < 10
    ensures n < 100 ==> |r| <= 2
  {
    if n < 10 then [DigitChar(n)]
    else
      var r := Decimal(n / 10) + [DigitChar(n % 10)];
      assert r[..|r| - 1] == Decimal(n / 10);
      r
  }

  /** `t.padStart(2, '0')`. */
  function PadStart2(t: string): string
    decreases 2 - |t|
  {
    if |t| >= 2 then t else PadStart2("0" + t)
  }

  /** A whole string that is one TIME_RE token: minute digits, a colon, two second digits. */
  predicate IsToken(t: seq<char>) {
    TimeAt(t, 0) == Some(|t|)
  }

  /**
   * The body of `calculateTime` once the token is found: splitting at its one colon gives the
   * minute digits and the two second digits, and both go through `parseInt`.
   */
  function TokenStamp(token: seq<char>): Stamp
    requires IsToken(token)
  {
    var colon := |token| - 3;
    assert AllDigits(token[..colon]) && AllDigits(token[colon + 1..]);
    var minutes := ParseDecimal(token[..colon]);
    var seconds := ParseDecimal(token[colon + 1..]);
    Stamp(60 * minutes + seconds, Decimal(minutes) + ":" + PadStart2(Decimal(seconds)))
  }

  /**
   * `calculateTime(text)`. `None` stands for the exception `text.match(TIME_RE)[0]` raises when
   * there is no token.
   */
  function CalculateTime(text: string): Option<Stamp> {
    match FindTime(text)
    case None => None
    case Some(sp) =>
      TimeAtSliceOuter(text, sp.start, sp.end, sp.start, sp.end);
      Some(TokenStamp(text[sp.start..sp.end]))
  }

  lemma ParseOneDigit(t: seq<char>)
    requires AllDigits(t) && |t| == 1
    ensures ParseDecimal(t) == DigitValue(t[0])
  {
    assert t[..0] == [];
  }

  lemma ParseTwoDigits(t: seq<char>)
    requires AllDigits(t) && |t| == 2
    ensures ParseDecimal(t) == 10 * DigitValue(t[0]) + DigitValue(t[1])
  {
    ParseOneDigit(t[..1]);
  }

  /** `parseInt` ignores leading zeros: "05" reads as 5. */
  lemma {:induction false} ParseDecimalLeadingZero(t: seq<char>)
    requires AllDigits(t) && t != [] && t[0] == '0'
    ensures ParseDecimal(t) == ParseDecimal(t[1..])
    decreases |t|
  {
    if |t| > 1 {
      var init := t[..|t| - 1];
      ParseDecimalLeadingZero(init);
      assert t[1..][..|t| - 2] == init[1..];
      assert t[1..][|t| - 2] == t[|t| - 1];
    }
  }

  /** `padStart(2, '0')` puts zeros in front of `t` until it is two characters long. */
  lemma {:induction false} PadStart2Meaning(t: string)
    ensures |PadStart2(t)| == if |t| >= 2 then |t| else 2
    ensures PadStart2(t) == seq(|PadStart2(t)| - |t|, _ => '0') + t
    decreases 2 - |t|
  {
    if |t| < 2 {
      PadStart2Meaning("0" + t);
      var n := |PadStart2(t)| - |t|;
      assert seq(n - 1, _ => '0') + ("0" + t) == seq(n, _ => '0') + t;
    } else {
      assert seq(0, _ => '0') + t == t;
    }
  }

  /** A string of at most two digits denotes at most 99. */
  lemma TwoDigitsAtMost99(t: seq<char>)
    requires AllDigits(t) && |t| <= 2
    ensures ParseDecimal(t) <= 99
  {
    if |t| == 1 {
      ParseOneDigit(t);
    } else if |t| == 2 {
      ParseTwoDigits(t);
    }
  }

  /** Two digits re-printed by `toString` and `padStart(2, '0')` come back unchanged. */
  lemma {:induction false} PaddedSecondsUnchanged(sd: seq<char>)
    requires AllDigits(sd) && |sd| == 2
    ensures PadStart2(Decimal(ParseDecimal(sd))) == sd
  {
    ParseTwoDigits(sd);
    var v := ParseDecimal(sd);
    if v < 10 {
      assert DigitValue(sd[0]) == 0;
    } else {
      assert Decimal(v / 10) == [sd[0]];
    }
  }

  /** A token's stamp: minutes times sixty plus seconds, labelled with the seconds as written. */
  lemma TokenStampMeaning(token: seq<char>)
    requires IsToken(token)
    ensures var md := token[..|token| - 3];
      var sd := token[|token| - 2..];
      AllDigits(md) && AllDigits(sd) && 1 <= |md| <= 2 && |sd| == 2 &&
      TokenStamp(token).time == 60 * ParseDecimal(md) + ParseDecimal(sd) &&
      TokenStamp(token).timeString == Decimal(ParseDecimal(md)) + ":" + sd &&
      0 <= TokenStamp(token).time <= MaxTokenTime
  {
    var md := token[..|token| - 3];
    var sd := token[|token| - 2..];
    assert token[|token| - 3 + 1..] == sd;
    TwoDigitsAtMost99(md);
    TwoDigitsAtMost99(sd);
    PaddedSecondsUnchanged(sd);
  }

  /**
   * The token `calculateTime` reads is the leftmost TIME_RE match; `time` is sixty times its
   * minutes plus its seconds, at most 99:99 with no check that seconds stay below 60; the label
   * is the minutes without leading zero, a colon and the two second digits as written.
   */
  lemma CalculateTimeMeaning(text: string)
    ensures CalculateTime(text).None? <==> FindTime(text).None?
    ensures CalculateTime(text).Some? ==>
      var sp := FindTime(text).value;
      var md := text[sp.start..sp.end - 3];
      var sd := text[sp.end - 2..sp.end];
      var st := CalculateTime(text).value;
      AllDigits(md) && AllDigits(sd) && 1 <= |md| <= 2 &&
      st.time == 60 * ParseDecimal(md) + ParseDecimal(sd) &&
      st.timeString == Decimal(ParseDecimal(md)) + ":" + sd &&
      0 <= st.time <= MaxTokenTime
  {
    if FindTime(text).Some? {
      var sp := FindTime(text).value;
      var token := text[sp.start..sp.end];
      TimeAtSliceOuter(text, sp.start, sp.end, sp.start, sp.end);
      TokenStampMeaning(token);
      assert token[..|token| - 3] == text[sp.start..sp.end - 3];
      assert token[|token| - 2..] == text[sp.end - 2..sp.end];
    }
  }

  /** A label built from at most 99 minutes and two second digits is a token on its own. */
  lemma LabelIsToken(m: nat, sd: seq<char>)
    requires m <= 99 && AllDigits(sd) && |sd| == 2
    ensures IsToken(Decimal(m) + ":" + sd)
  {
    var dm := Decimal(m);
    var shown := dm + ":" + sd;
    assert shown[|dm|] == ':' && shown[|dm| + 1] == sd[0] && shown[|dm| + 2] == sd[1];
    assert shown[0] == dm[0];
    if |dm| == 2 {
      assert shown[1] == dm[1];
    }
  }

  /** A string that is exactly one token is read whole. */
  lemma TokenAlone(t: seq<char>)
    requires IsToken(t)
    ensures CalculateTime(t) == Some(TokenStamp(t))
  {
    FindTimeFromIs(t, 0, Span(0, |t|));
    assert t[0..|t|] == t;
  }

  /** The stamp of a label: its minutes and seconds read back as written. */
  lemma LabelTokenStamp(m: nat, sd: seq<char>, shown: seq<char>)
    requires m <= 99 && AllDigits(sd) && |sd| == 2
    requires shown == Decimal(m) + ":" + sd
    ensures IsToken(shown)
    ensures TokenStamp(shown) == Stamp(60 * m + ParseDecimal(sd), shown)
  {
    LabelIsToken(m, sd);
    TokenStampMeaning(shown);
    assert shown[..|shown| - 3] == Decimal(m);
    assert shown[|shown| - 2..] == sd;
  }

  /** `calculateTime` of a label: the label is its own token and reads back as itself. */
  lemma LabelStamp(m: nat, sd: seq<char>)
    requires m <= 99 && AllDigits(sd) && |sd| == 2
    ensures CalculateTime(Decimal(m) + ":" + sd) ==
      Some(Stamp(60 * m + ParseDecimal(sd), Decimal(m) + ":" + sd))
  {
    var shown := Decimal(m) + ":" + sd;
    LabelTokenStamp(m, sd, shown);
    TokenAlone(shown);
  }

  /** The label is itself a token, and `calculateTime` of the label gives back the same stamp. */
  lemma LabelRoundTrip(text: string)
    requires CalculateTime(text).Some?
    ensures CalculateTime(CalculateTime(text).value.timeString) == CalculateTime(text)
  {
    var sp := FindTime(text).value;
    TimeAtSliceOuter(text, sp.start, sp.end, sp.start, sp.end);
    var token := text[sp.start..sp.end];
    assert CalculateTime(text) == Some(TokenStamp(token));
    TokenLabelRoundTrip(token);
  }

  /** The label of a token's stamp reads back as that same stamp. */
  lemma TokenLabelRoundTrip(token: seq<char>)
    requires IsToken(token)
    ensures CalculateTime(TokenStamp(token).timeString) == Some(TokenStamp(token))
  {
    TokenStampMeaning(token);
    var md := token[..|token| - 3];
    var sd := token[|token| - 2..];
    TwoDigitsAtMost99(md);
    LabelStamp(ParseDecimal(md), sd);
  }

  /** Re-reading the matched token alone, as `create` does, gives the same stamp as the text. */
  lemma TokenReparses(text: string)
    requires FindTime(text).Some?
    ensures var sp := FindTime(text).value;
      CalculateTime(text[sp.start..sp.end]) == CalculateTime(text)
  {
    var sp := FindTime(text).value;
    var token := text[sp.start..sp.end];
    TimeAtSliceOuter(text, sp.start, sp.end, sp.start, sp.end);
    FindTimeFromIs(token, 0, Span(0, |token|));
    assert token[0..|token|] == token;
  }

  /** `calculateTime` of a text whose leftmost token spans `[start, end)`. */
  lemma CalculateTimeAt(text: string, start: nat, end: nat)
    requires TimeAt(text, start) == Some(end)
    requires forall q :: 0 <= q < start ==> TimeAt(text, q).None?
    ensures start < end <= |text|
    ensures CalculateTime(text) == Some(TokenStamp(text[start..end]))
  {
    FindTimeFromIs(text, 0, Span(start, end));
  }

  /** A slice equals a string when it matches it character by character. */
  lemma SliceIs(s: seq<char>, i: nat, j: nat, t: seq<char>)
    requires i <= j <= |s| && j - i == |t|
    requires forall k :: 0 <= k < |t| ==> s[i + k] == t[k]
    ensures s[i..j] == t
  {
  }

  /** The stamp of a token `mm:ss` written with two minute digits. */
  lemma TwoDigitTokenStamp(token: seq<char>)
    requires IsToken(token) && |token| == 5
    ensures var m := 10 * DigitValue(token[0]) + DigitValue(token[1]);
      TokenStamp(token) ==
        Stamp(60 * m + 10 * DigitValue(token[3]) + DigitValue(token[4]), Decimal(m) + ":" + token[3..])
  {
    TokenStampMeaning(token);
    ParseTwoDigits(token[..2]);
    ParseTwoDigits(token[3..]);
  }

  /** The stamp of a token `m:ss` written with one minute digit. */
  lemma OneDigitTokenStamp(token: seq<char>)
    requires IsToken(token) && |token| == 4
    ensures TokenStamp(token) ==
      Stamp(60 * DigitValue(token[0]) + 10 * DigitValue(token[2]) + DigitValue(token[3]),
            Decimal(DigitValue(token[0])) + ":" + token[2..])
  {
    TokenStampMeaning(token);
    ParseOneDigit(token[..1]);
    ParseTwoDigits(token[2..]);
  }

  /** A leading zero of the minutes is dropped from the label: "05:07" reads as 307 seconds, "5:07". */
  lemma LeadingZeroMinutesDropped()
    ensures CalculateTime("05:07") == Some(Stamp(307, "5:07"))
  {
    var s := "05:07";
    assert IsToken(s);
    TokenAlone(s);
    TwoDigitTokenStamp(s);
    assert DigitValue(s[0]) == 0 && DigitValue(s[1]) == 5;
    assert DigitValue(s[3]) == 0 && DigitValue(s[4]) == 7;
    assert s[3..] == "07";
    assert Decimal(5) == "5";
    assert "5" + ":" + "07" == "5:07";
  }

  lemma Token905()
    ensures IsToken("9:05") && TokenStamp("9:05") == Stamp(545, "9:05")
  {
    var token := "9:05";
    assert IsToken(token);
    OneDigitTokenStamp(token);
    assert DigitValue(token[0]) == 9;
    assert DigitValue(token[2]) == 0 && DigitValue(token[3]) == 5;
    assert token[2..] == "05";
    assert Decimal(9) == "9";
    assert "9" + ":" + "05" == "9:05";
  }

  /** A one-digit-minute token at the start: "9:05 clip" reads as 545 seconds, "9:05". */
  lemma OneDigitMinutes()
    ensures CalculateTime("9:05 clip") == Some(Stamp(545, "9:05"))
  {
    var s := "9:05 clip";
    assert TimeAt(s, 0) == Some(4);
    CalculateTimeAt(s, 0, 4);
    SliceIs(s, 0, 4, "9:05");
    Token905();
  }

  lemma Token2345()
    ensures IsToken("23:45") && TokenStamp("23:45") == Stamp(1425, "23:45")
  {
    var token := "23:45";
    assert IsToken(token);
    TwoDigitTokenStamp(token);
    assert DigitValue(token[0]) == 2 && DigitValue(token[1]) == 3;
    assert DigitValue(token[3]) == 4 && DigitValue(token[4]) == 5;
    assert token[3..] == "45";
    assert Decimal(23) == "23" by { assert Decimal(2) == "2"; }
    assert "23" + ":" + "45" == "23:45";
  }

  /** Three leading digits: the token starts at the second one, so "123:45" reads as 23:45. */
  lemma ThreeDigitMinutes()
    ensures CalculateTime("123:45") == Some(Stamp(1425, "23:45"))
  {
    var s := "123:45";
    assert TimeAt(s, 0).None?;
    assert TimeAt(s, 1) == Some(6);
    CalculateTimeAt(s, 1, 6);
    SliceIs(s, 1, 6, "23:45");
    Token2345();
  }

  /** Without a token `calculateTime` throws: "12:3" has a single second digit, so no token. */
  lemma NoTokenThrows()
    ensures CalculateTime("12:3") == None
  {
    var s := "12:3";
    assert forall q :: 0 <= q <= |s| ==> TimeAt(s, q).None?;
  }
}
