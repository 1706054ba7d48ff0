/**
 What masking keeps, what it hides, and when two texts mask alike.
 */
module MaskingTheorems {
  import opened Options
  import opened TemplateMasking

  // ----- the tokens are a lossless reading of the text -----

  lemma {:induction false} ScanLossless(alnum: char -> bool, s: Text, i: nat)
    requires i <= |s|
    ensures Concat(Scan(alnum, s, i)) == s[i..]
    decreases |s| - i
  {
    hide NextToken;
    if i < |s| {
      var t := NextToken(alnum, s, i);
      ScanStep(alnum, s, i);
      ScanLossless(alnum, s, i + |t.text|);
      assert s[i..] == s[i..i + |t.text|] + s[i + |t.text|..];
    }
  }

  ghost predicate NoDigits(s: Text) {
    forall i :: 0 <= i < |s| ==> !IsDigit(s[i])
  }

  /** The template shows no digit. */
  lemma {:induction false} TemplateHasNoDigits(tokens: seq<Token>)
    requires forall t :: t in tokens && t.Plain? ==> NoDigits(t.text)
    ensures NoDigits(Template(tokens))
  {
    if tokens != [] {
      assert tokens[0] in tokens;
      TemplateHasNoDigits(tokens[1..]);
    }
  }

  lemma {:induction false} AllPlain(tokens: seq<Token>)
    requires forall t :: t in tokens ==> t.Plain?
    ensures Template(tokens) == Concat(tokens) && Numbers(tokens) == []
  {
    if tokens != [] {
      assert tokens[0] in tokens;
      AllPlain(tokens[1..]);
    }
  }

  lemma {:induction false} ScanOfDigitless(alnum: char -> bool, s: Text, i: nat)
    requires i <= |s| && NoDigits(s)
    ensures forall t :: t in Scan(alnum, s, i) ==> t.Plain?
    decreases |s| - i
  {
    if i < |s| {
      assert !DigitAt(s, i + 1);
      assert NextToken(alnum, s, i) == Plain([s[i]]);
      ScanOfDigitless(alnum, s, i + 1);
    }
  }

  /** Text without digits is its own template, with no numbers. */
  lemma DigitlessIsItsOwnTemplate(alnum: char -> bool, s: Text)
    requires NoDigits(s)
    ensures Template(Scan(alnum, s, 0)) == s && Numbers(Scan(alnum, s, 0)) == []
  {
    ScanOfDigitless(alnum, s, 0);
    AllPlain(Scan(alnum, s, 0));
    ScanLossless(alnum, s, 0);
  }

  /** Masking a template again returns it unchanged, with no numbers. */
  lemma MaskingIsIdempotent(alnum: char -> bool, s: Text)
    ensures var template := Template(Scan(alnum, s, 0));
            && NoDigits(template)
            && Template(Scan(alnum, template, 0)) == template
            && Numbers(Scan(alnum, template, 0)) == []
  {
    TokensMeetTheGrammar(alnum, s, 0);
    TemplateHasNoDigits(Scan(alnum, s, 0));
    DigitlessIsItsOwnTemplate(alnum, Template(Scan(alnum, s, 0)));
  }

  // ----- what `<t>` and `<n>` stand for: a grammar that does not mention the scanner -----

  ghost predicate Digits(x: Text) {
    forall i :: 0 <= i < |x| ==> IsDigit(x[i])
  }

  ghost predicate IsDate(x: Text) {
    |x| == 10 && Digits(x[..4]) && x[4] == '-' && Digits(x[5..7]) && x[7] == '-' && Digits(x[8..])
  }

  ghost predicate IsOffset(x: Text) {
    || x == "z"
    || (|x| == 6 && (x[0] == '+' || x[0] == '-') && Digits(x[1..3]) && x[3] == ':' && Digits(x[4..]))
  }

  /** Seconds with an optional fraction, or nothing. */
  ghost predicate IsSeconds(x: Text) {
    || x == []
    || (|x| == 3 && x[0] == ':' && Digits(x[1..]))
    || (|x| > 4 && x[0] == ':' && Digits(x[1..3]) && x[3] == '.' && Digits(x[4..]))
  }

  /** Hours that end at `h`, minutes, seconds that end at `k`, and an offset, the last two optional. */
  ghost predicate ClockAt(x: Text, h: int, k: int) {
    && 1 <= h <= 2 && h + 3 <= k <= |x|
    && Digits(x[..h]) && x[h] == ':' && Digits(x[h + 1..h + 3])
    && IsSeconds(x[h + 3..k])
    && (x[k..] == [] || IsOffset(x[k..]))
  }

  /** `h:mm` or `hh:mm`, then seconds and an offset, each optional. */
  ghost predicate IsClock(x: Text) {
    exists h, k :: ClockAt(x, h, k)
  }

  ghost predicate IsTimestamp(x: Text) {
    || IsDate(x)
    || IsClock(x)
    || (|x| > 11 && IsDate(x[..10]) && (x[10] == 't' || x[10] == ' ') && IsClock(x[11..]))
  }

  /** An optional sign, digits that end at `whole`, and an optional fraction. */
  ghost predicate NumberAt(x: Text, sign: int, whole: int) {
    && 0 <= sign <= 1 && sign < whole <= |x|
    && (sign == 1 ==> x[0] == '-')
    && Digits(x[sign..whole])
    && (whole == |x| || (whole + 1 < |x| && x[whole] == '.' && Digits(x[whole + 1..])))
  }

  ghost predicate IsNumber(x: Text) {
    exists sign, whole :: NumberAt(x, sign, whole)
  }

  lemma FixedGrammar(s: Text, i: nat, count: nat)
    requires FixedDigits(s, i, count).Some?
    ensures FixedDigits(s, i, count).value == i + count <= |s| && Digits(s[i..i + count])
  {
  }

  lemma RunGrammar(s: Text, i: nat)
    requires i <= |s|
    ensures Digits(s[i..DigitsEnd(s, i)])
  {
    forall k | 0 <= k < DigitsEnd(s, i) - i
      ensures IsDigit(s[i..DigitsEnd(s, i)][k])
    {
      assert DigitAt(s, i + k);
    }
  }

  lemma Part(s: Text, i: nat, end: nat, a: nat, b: nat)
    requires i <= end <= |s| && a <= b <= end - i
    ensures s[i..end][a..b] == s[i + a..i + b]
  {
    assert forall k :: 0 <= k < b - a ==> s[i..end][a..b][k] == s[i + a..i + b][k];
  }

  lemma OffsetGrammar(alnum: char -> bool, s: Text, i: nat)
    requires MatchOffset(alnum, s, i).Some?
    ensures i < MatchOffset(alnum, s, i).value <= |s|
    ensures IsOffset(s[i..MatchOffset(alnum, s, i).value])
  {
    var end := MatchOffset(alnum, s, i).value;
    if CharAt(s, i, 'z') {
      assert s[i..end] == "z";
    } else {
      FixedGrammar(s, i + 1, 2);
      FixedGrammar(s, i + 4, 2);
      Part(s, i, end, 1, 3);
      Part(s, i, end, 4, 6);
      assert s[i..end][4..] == s[i..end][4..6];
    }
  }

  lemma SecondsGrammar(s: Text, i: nat)
    requires i <= |s|
    ensures i <= SecondsEnd(s, i) <= |s|
    ensures IsSeconds(s[i..SecondsEnd(s, i)])
  {
    var end := SecondsEnd(s, i);
    var x := s[i..end];
    if end != i {
      FixedGrammar(s, i + 1, 2);
      Part(s, i, end, 1, 3);
      if end == i + 3 {
        assert x[1..] == x[1..3];
      } else {
        RunGrammar(s, i + 4);
        assert DigitAt(s, i + 4);
        Part(s, i, end, 4, end - i);
        assert x[4..] == x[4..end - i];
      }
    }
  }

  lemma ClockGrammar(alnum: char -> bool, s: Text, i: nat)
    requires MatchTime(alnum, s, i).Some?
    ensures i < MatchTime(alnum, s, i).value <= |s|
    ensures IsClock(s[i..MatchTime(alnum, s, i).value])
  {
    hide MatchOffset, SecondsEnd, IsSeconds, IsOffset, IsClock;
    var end := MatchTime(alnum, s, i).value;
    var hourEnd := DigitsEnd(s, i);
    FixedGrammar(s, hourEnd + 1, 2);
    var index := SecondsEnd(s, hourEnd + 3);
    SecondsGrammar(s, hourEnd + 3);
    if MatchOffset(alnum, s, index).Some? {
      OffsetGrammar(alnum, s, index);
    }
    ClockFromParts(s, i, hourEnd, index, end);
  }

  lemma ClockFromParts(s: Text, i: nat, hourEnd: nat, index: nat, end: nat)
    requires i < hourEnd <= i + 2 && hourEnd + 3 <= index <= end <= |s|
    requires hourEnd == DigitsEnd(s, i) && s[hourEnd] == ':' && Digits(s[hourEnd + 1..hourEnd + 3])
    requires IsSeconds(s[hourEnd + 3..index])
    requires index == end || IsOffset(s[index..end])
    ensures IsClock(s[i..end])
  {
    hide IsSeconds, IsOffset;
    var x := s[i..end];
    var h, k := hourEnd - i, index - i;
    RunGrammar(s, i);
    Part(s, i, end, 0, h);
    Part(s, i, end, h + 1, h + 3);
    Part(s, i, end, h + 3, k);
    Part(s, i, end, k, end - i);
    assert x[..h] == x[0..h] && x[k..] == x[k..end - i];
    assert x[h] == ':';
    assert ClockAt(x, h, k);
  }

  lemma DateGrammar(s: Text, i: nat)
    requires MatchDate(s, i).Some?
    ensures MatchDate(s, i).value == i + 10 <= |s| && IsDate(s[i..i + 10])
  {
    FixedGrammar(s, i, 4);
    FixedGrammar(s, i + 5, 2);
    FixedGrammar(s, i + 8, 2);
    var x := s[i..i + 10];
    Part(s, i, i + 10, 0, 4);
    Part(s, i, i + 10, 5, 7);
    Part(s, i, i + 10, 8, 10);
    assert x[..4] == x[0..4] && x[8..] == x[8..10];
    assert x[4] == s[i + 4] && x[7] == s[i + 7];
  }

  lemma TimestampGrammar(alnum: char -> bool, s: Text, i: nat)
    requires MatchTimestamp(alnum, s, i).Some?
    ensures i < MatchTimestamp(alnum, s, i).value <= |s|
    ensures IsTimestamp(s[i..MatchTimestamp(alnum, s, i).value])
  {
    hide MatchDate, MatchTime, IsDate, IsClock;
    MatchTimestampBounds(alnum, s, i);
    var end := MatchTimestamp(alnum, s, i).value;
    var x := s[i..end];
    if MatchDate(s, i).Some? {
      DateGrammar(s, i);
      if end != i + 10 {
        ClockGrammar(alnum, s, i + 11);
        assert x[..10] == s[i..i + 10] && x[11..] == s[i + 11..end] && x[10] == s[i + 10];
      }
    } else {
      ClockGrammar(alnum, s, i);
    }
  }

  lemma NumberGrammar(s: Text, i: nat, signed: bool)
    requires DigitAt(s, if signed then i + 1 else i) && (signed ==> CharAt(s, i, '-'))
    ensures IsNumber(s[i..NumberEnd(s, i, signed)])
  {
    var end := NumberEnd(s, i, signed);
    var x := s[i..end];
    var sign := if signed then 1 else 0;
    var whole := DigitsEnd(s, i + sign) - i;
    RunGrammar(s, i + sign);
    Part(s, i, end, sign, whole);
    assert sign < whole;
    if whole != |x| {
      RunGrammar(s, i + whole + 1);
      Part(s, i, end, whole + 1, end - i);
      assert x[whole + 1..] == x[whole + 1..end - i];
      assert x[whole] == '.';
    }
    assert NumberAt(x, sign, whole);
  }

  ghost predicate MeetsTheGrammar(t: Token) {
    match t
    case Stamp(x) => IsTimestamp(x)
    case Number(x) => IsNumber(x)
    case Plain(x) => |x| == 1 && !IsDigit(x[0])
  }

  lemma NextTokenMeetsTheGrammar(alnum: char -> bool, s: Text, i: nat)
    requires i < |s|
    ensures MeetsTheGrammar(NextToken(alnum, s, i))
  {
    var t := NextToken(alnum, s, i);
    if t.Stamp? {
      TimestampGrammar(alnum, s, i);
    } else if t.Number? {
      NumberGrammar(s, i, Signed(alnum, s, i));
    }
  }

  /** Everything shown as `<t>` is a timestamp and everything shown as `<n>` is a number. */
  lemma {:induction false} TokensMeetTheGrammar(alnum: char -> bool, s: Text, i: nat)
    requires i <= |s|
    ensures forall t :: t in Scan(alnum, s, i) ==> MeetsTheGrammar(t)
    decreases |s| - i
  {
    hide NextToken;
    if i < |s| {
      NextTokenMeetsTheGrammar(alnum, s, i);
      TokensMeetTheGrammar(alnum, s, i + |NextToken(alnum, s, i).text|);
    }
  }
}
