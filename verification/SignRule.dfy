/**
 The sign rule of the scanner: a minus in front of a number is part of the number, so a
 value and its negative share a template; a hyphen after a word is not.
 */
module SignRule {
  import opened Options
  import opened TemplateMasking
  import opened MaskingTheorems
  import opened ScanLocality
  import opened DateTimes

  /** An unsigned number that is no timestamp starts this text. */
  ghost predicate StartsWithNumber(alnum: char -> bool, rest: Text) {
    rest != [] && IsDigit(rest[0]) && MatchTimestamp(alnum, rest, 0).None?
  }

  /** The number at the front, without a sign. */
  function FirstNumber(rest: Text): Text
    requires rest != [] && IsDigit(rest[0])
  {
    rest[..NumberEnd(rest, 0, false)]
  }

  lemma NoClockAtNumber(alnum: char -> bool, rest: Text)
    requires StartsWithNumber(alnum, rest)
    ensures MatchTime(alnum, rest, 0).None?
  {
    hide MatchDate, MatchTime;
  }

  lemma UnsignedToken(alnum: char -> bool, rest: Text)
    requires StartsWithNumber(alnum, rest)
    ensures NextToken(alnum, rest, 0) == Number(FirstNumber(rest))
  {
    hide MatchTimestamp, NumberEnd;
    assert rest[0..NumberEnd(rest, 0, false)] == rest[..NumberEnd(rest, 0, false)];
  }

  lemma MinusStartsNoTimestamp(alnum: char -> bool, rest: Text)
    ensures MatchTimestamp(alnum, "-" + rest, 0).None? && MatchTime(alnum, "-" + rest, 0).None?
  {
    hide MatchDate, MatchTime;
    MatchTimestampBounds(alnum, "-" + rest, 0);
    MatchTimeBounds(alnum, "-" + rest, 0);
  }

  lemma SignedToken(alnum: char -> bool, rest: Text)
    requires AlnumOk(alnum) && StartsWithNumber(alnum, rest)
    ensures NextToken(alnum, "-" + rest, 0) == Number("-" + FirstNumber(rest))
  {
    hide MatchTimestamp, NumberEnd, AlnumOk;
    var v := "-" + rest;
    var end := NumberEnd(rest, 0, false);
    assert Embeds(rest, v, 1);
    TimestampEmbed(alnum, rest, v, 1, 0);
    MinusStartsNoTimestamp(alnum, rest);
    assert Signed(alnum, v, 0);
    NumberEndAfterSign(rest);
    assert v[0..end + 1] == "-" + rest[..end];
  }

  lemma NumberEndAfterSign(rest: Text)
    requires rest != [] && IsDigit(rest[0])
    ensures NumberEnd("-" + rest, 0, true) == 1 + NumberEnd(rest, 0, false)
  {
    var v := "-" + rest;
    assert Embeds(rest, v, 1);
    DigitsEndEmbed(rest, v, 1, 0);
    var whole := DigitsEnd(rest, 0);
    AtEmbed(rest, v, 1, whole);
    if CharAt(rest, whole, '.') {
      AtEmbed(rest, v, 1, whole + 1);
      DigitsEndEmbed(rest, v, 1, whole + 1);
    }
  }

  /** The tokens of a text that starts with a number, and of the same text with a minus in front. */
  lemma {:induction false} ScanWithSign(alnum: char -> bool, rest: Text)
    requires AlnumOk(alnum) && StartsWithNumber(alnum, rest)
    ensures var n := FirstNumber(rest);
            var after := Scan(alnum, rest, |n|);
            && Scan(alnum, rest, 0) == [Number(n)] + after
            && Scan(alnum, "-" + rest, 0) == [Number("-" + n)] + after
  {
    hide NextToken, Scan, AlnumOk;
    var n := FirstNumber(rest);
    var v := "-" + rest;
    UnsignedToken(alnum, rest);
    ScanCons(alnum, rest, 0, Number(n));
    SignedToken(alnum, rest);
    ScanCons(alnum, v, 0, Number("-" + n));
    assert Embeds(rest, v, 1);
    ScanEmbed(alnum, rest, v, 1, |n|);
    NothingRead(alnum, v);
    assert Scan(alnum, rest, |n|) + [] == Scan(alnum, rest, |n|);
  }

  /** The text reads alike, but for the number, with and without a minus before `rest`. */
  ghost predicate SharesTemplate(alnum: char -> bool, pre: Text, rest: Text) {
    Template(Scan(alnum, pre + "-" + rest, 0)) == Template(Scan(alnum, pre + rest, 0))
  }

  /**
   A number and its negative, at the start of the text or after a break, give the same
   template, and number lists that differ in that one sign only.
   */
  lemma {:induction false} SignSharesTemplate(alnum: char -> bool, pre: Text, rest: Text)
    requires AlnumOk(alnum) && Cut(alnum, pre) && StartsWithNumber(alnum, rest)
    ensures SharesTemplate(alnum, pre, rest)
    ensures var n := FirstNumber(rest);
            var plain, negative := Scan(alnum, pre + rest, 0), Scan(alnum, pre + "-" + rest, 0);
            var before, after := Numbers(Scan(alnum, pre, 0)), Numbers(Scan(alnum, rest, |n|));
            && Numbers(plain) == before + [n] + after
            && Numbers(negative) == before + ["-" + n] + after
  {
    hide NextToken, Scan, MatchTime, Template, Numbers, AlnumOk, StartsWithNumber;
    NumberIsThere(alnum, rest);
    var n := FirstNumber(rest);
    var a, b := Scan(alnum, pre, 0), Scan(alnum, rest, |n|);
    NoClockAtNumber(alnum, rest);
    MinusStartsNoTimestamp(alnum, rest);
    ScanAfterCut(alnum, pre, rest);
    ScanAfterCut(alnum, pre, "-" + rest);
    assert pre + "-" + rest == pre + ("-" + rest);
    ScanWithSign(alnum, rest);
    NumberBetween(a, n, b);
    NumberBetween(a, "-" + n, b);
  }

  lemma NumberIsThere(alnum: char -> bool, rest: Text)
    requires StartsWithNumber(alnum, rest)
    ensures rest != [] && IsDigit(rest[0])
  {
  }

  lemma NumberBetween(a: seq<Token>, n: Text, b: seq<Token>)
    ensures Template(a + ([Number(n)] + b)) == Template(a) + "<n>" + Template(b)
    ensures Numbers(a + ([Number(n)] + b)) == Numbers(a) + [n] + Numbers(b)
  {
    Assoc(a, [Number(n)], b);
    Extend(a, Number(n));
    TemplateAppend(a + [Number(n)], b);
    NumbersAppend(a + [Number(n)], b);
  }

  // ----- where a minus changes more than the number -----

  /** What a template starts with, told from the first token. */
  lemma {:induction false} TemplateStarts(alnum: char -> bool, s: Text, t: Token)
    requires s != [] && NextToken(alnum, s, 0) == t
    ensures Template(Scan(alnum, s, 0)) == Shown(t) + Template(Scan(alnum, s, |t.text|))
  {
    hide NextToken, Scan, Template;
    ScanStep(alnum, s, 0);
  }

  /** After a minus: the first one is the sign of the plain number, and of the negative one it is not. */
  lemma {:induction false} AfterMinus(alnum: char -> bool)
    requires AlnumOk(alnum) && !alnum('-')
    ensures StartsWithNumber(alnum, "5") && !SharesTemplate(alnum, "-", "5")
  {
    var plain, negative := "-5", "--5";
    assert NextToken(alnum, plain, 0).Number? && NextToken(alnum, negative, 0) == Plain("-");
    hide NextToken, Scan, Template;
    TemplateStarts(alnum, plain, NextToken(alnum, plain, 0));
    TemplateStarts(alnum, negative, Plain("-"));
    assert "-" + "5" == plain && "-" + "-" + "5" == negative;
    assert Template(Scan(alnum, plain, 0))[0] != Template(Scan(alnum, negative, 0))[0];
  }

  /** After a decimal point: the plain number continues the one before the point. */
  lemma {:induction false} AfterPoint(alnum: char -> bool)
    requires AlnumOk(alnum) && !alnum('.')
    ensures StartsWithNumber(alnum, "5") && !SharesTemplate(alnum, "1.", "5")
  {
    var plain, negative := "1.5", "1.-5";
    assert plain[0..3] == plain;
    assert NextToken(alnum, plain, 0) == Number(plain);
    assert NextToken(alnum, negative, 0) == Number("1");
    assert NextToken(alnum, negative, 1) == Plain(".");
    hide NextToken, Scan, Template;
    TemplateStarts(alnum, plain, Number(plain));
    NothingRead(alnum, plain);
    TemplateStarts(alnum, negative, Number("1"));
    ScanStep(alnum, negative, 1);
    assert "1." + "5" == plain && "1." + "-" + "5" == negative;
    assert |Template(Scan(alnum, plain, 0))| == 3 < |Template(Scan(alnum, negative, 0))|;
  }

  /** One digit and a colon before two digits start a clock time. */
  lemma {:induction false} ShortClock(alnum: char -> bool, s: Text)
    requires |s| >= 4 && IsDigit(s[0]) && s[1] == ':' && IsDigit(s[2]) && IsDigit(s[3])
    requires |s| > 4 ==> !IsDigit(s[4]) && s[4] != ':'
    ensures var offset := MatchOffset(alnum, s, 4);
            var end := if offset.Some? then offset.value else 4;
            4 <= end <= |s| && NextToken(alnum, s, 0) == Stamp(s[0..end])
  {
    hide MatchOffset;
    MatchOffsetBounds(alnum, s, 4);
    RunEnds(s, 0, 1);
    assert FixedDigits(s, 2, 2) == Some(4);
    assert MatchDate(s, 0).None? && SecondsEnd(s, 4) == 4;
  }

  /** One digit and a colon before no digit are a number and a colon. */
  lemma {:induction false} NoClock(alnum: char -> bool, s: Text)
    requires |s| >= 3 && IsDigit(s[0]) && s[1] == ':' && !IsDigit(s[2])
    ensures NextToken(alnum, s, 0) == Number([s[0]])
  {
    RunEnds(s, 0, 1);
    assert MatchDate(s, 0).None? && MatchTime(alnum, s, 0).None?;
    assert s[0..1] == [s[0]];
  }

  /** Two templates that start with different marks. */
  lemma {:induction false} TemplatesDiffer(alnum: char -> bool, s: Text, x: Token, t: Text, y: Token)
    requires s != [] && t != [] && NextToken(alnum, s, 0) == x && NextToken(alnum, t, 0) == y
    requires x.Stamp? && y.Number?
    ensures Template(Scan(alnum, s, 0)) != Template(Scan(alnum, t, 0))
  {
    hide NextToken, Scan, Template;
    TemplateStarts(alnum, s, x);
    TemplateStarts(alnum, t, y);
    assert Template(Scan(alnum, s, 0))[1] != Template(Scan(alnum, t, 0))[1];
  }

  lemma ThirtyIsNumber(alnum: char -> bool)
    ensures StartsWithNumber(alnum, "30")
  {
    RunEnds("30", 0, 2);
  }

  /** After a colon: the plain number is the minutes of a clock time. */
  lemma {:induction false} AfterColon(alnum: char -> bool)
    ensures StartsWithNumber(alnum, "30") && !SharesTemplate(alnum, "1:", "30")
  {
    hide NextToken, Scan, Template, MatchOffset, StartsWithNumber;
    var plain, negative := "1:30", "1:-30";
    ThirtyIsNumber(alnum);
    ShortClock(alnum, plain);
    NoClock(alnum, negative);
    TemplatesDiffer(alnum, plain, NextToken(alnum, plain, 0), negative, Number("1"));
    assert "1:" + "30" == plain && "1:" + "-" + "30" == negative;
  }

  /** Seconds of three digits make no clock time. */
  lemma {:induction false} LongSeconds(alnum: char -> bool, s: Text)
    requires s == "05:30:155"
    ensures StartsWithNumber(alnum, s)
  {
    RunEnds(s, 0, 2);
    assert FixedDigits(s, 3, 2) == Some(5) && FixedDigits(s, 6, 2) == Some(8);
    assert SecondsEnd(s, 5) == 8;
    assert MatchDate(s, 0).None? by {
      assert s[2] == ':';
    }
  }

  /** The offset of a clock time takes in the number after the plus, and nothing else. */
  lemma OffsetThenColon(alnum: char -> bool, s: Text)
    requires s == "1:30+05:30:155"
    ensures MatchOffset(alnum, s, 4) == Some(10) && NextToken(alnum, s, 10) == Plain(":")
  {
    hide MatchTimestamp;
    assert FixedDigits(s, 5, 2) == Some(7) && FixedDigits(s, 8, 2) == Some(10);
  }

  lemma PlusThenMinus(alnum: char -> bool, s: Text)
    requires s == "1:30+-05:30:155"
    ensures MatchOffset(alnum, s, 4).None? && NextToken(alnum, s, 4) == Plain("+")
  {
    hide MatchTimestamp;
    assert s[5] == '-' && FixedDigits(s, 5, 2).None?;
  }

  /** Two templates that start alike and go on with different characters. */
  lemma {:induction false} TemplatesPart(alnum: char -> bool, s: Text, i: nat, x: Token, t: Text, j: nat, y: Token)
    requires 0 < i < |s| && 0 < j < |t| && NextToken(alnum, s, 0) == Stamp(s[0..i]) && NextToken(alnum, t, 0) == Stamp(t[0..j])
    requires NextToken(alnum, s, i) == x && NextToken(alnum, t, j) == y
    requires x.Plain? && y.Plain? && x.text[0] != y.text[0]
    ensures Template(Scan(alnum, s, 0)) != Template(Scan(alnum, t, 0))
  {
    hide NextToken, Scan, Template;
    TemplateStarts(alnum, s, Stamp(s[0..i]));
    TemplateStarts(alnum, t, Stamp(t[0..j]));
    ScanStep(alnum, s, i);
    ScanStep(alnum, t, j);
    assert Template(Scan(alnum, s, 0))[3] == x.text[0] && Template(Scan(alnum, t, 0))[3] == y.text[0];
  }

  /** After a plus: the plain number is the offset of a clock time, although alone it starts none. */
  lemma {:induction false} AfterPlus(alnum: char -> bool)
    ensures StartsWithNumber(alnum, "05:30:155") && !SharesTemplate(alnum, "1:30+", "05:30:155")
  {
    hide NextToken, Scan, Template, MatchOffset, StartsWithNumber;
    var plain, negative := "1:30+05:30:155", "1:30+-05:30:155";
    LongSeconds(alnum, "05:30:155");
    ShortClock(alnum, plain);
    ShortClock(alnum, negative);
    OffsetThenColon(alnum, plain);
    PlusThenMinus(alnum, negative);
    TemplatesPart(alnum, plain, 10, Plain(":"), negative, 4, Plain("+"));
    assert "1:30+" + "05:30:155" == plain && "1:30+" + "-" + "05:30:155" == negative;
  }

  /** A number that follows a text ending in `c` always shares its template with its negative. */
  ghost predicate AlwaysShares(alnum: char -> bool, c: char) {
    forall p, rest {:trigger SharesTemplate(alnum, p + [c], rest)} ::
      StartsWithNumber(alnum, rest) ==> SharesTemplate(alnum, p + [c], rest)
  }

  /**
   The characters, other than letters and digits, after which a number and its negative share
   a template whatever the text: all but the four signs that numbers and times are built with.
   */
  lemma {:induction false} SharesExactlyAfterBreaks(alnum: char -> bool, c: char)
    requires AlnumOk(alnum) && !alnum(c)
    ensures AlwaysShares(alnum, c) <==> c !in "-.:+"
  {
    hide SharesTemplate, StartsWithNumber, AlnumOk;
    if c == '-' {
      AfterMinus(alnum);
      assert [] + [c] == "-";
    } else if c == '.' {
      AfterPoint(alnum);
      assert "1" + [c] == "1.";
    } else if c == ':' {
      AfterColon(alnum);
      assert "1" + [c] == "1:";
    } else if c == '+' {
      AfterPlus(alnum);
      assert "1:30" + [c] == "1:30+";
    } else {
      forall p, rest | StartsWithNumber(alnum, rest)
        ensures SharesTemplate(alnum, p + [c], rest)
      {
        SignSharesTemplate(alnum, p + [c], rest);
      }
    }
  }

  // ----- where a minus is a sign -----

  predicate Signs(x: Text) {
    x != [] && x[0] == '-'
  }

  /** A number with a sign is read at `i`. */
  ghost predicate SignedNumberAt(tokens: seq<Token>, i: nat) {
    exists k :: 0 <= k < |tokens| && |Concat(tokens[..k])| == i && tokens[k].Number? && Signs(tokens[k].text)
  }

  /** Inside a token, a minus follows a digit. */
  predicate MinusAfterDigit(x: Text) {
    forall k :: 0 < k < |x| && x[k] == '-' ==> IsDigit(x[k - 1])
  }

  lemma OffsetMinus(x: Text)
    requires IsOffset(x)
    ensures forall k :: 0 < k < |x| ==> x[k] != '-'
  {
    if |x| == 6 {
      assert x[1..3][0] == x[1] && x[1..3][1] == x[2] && x[4..][0] == x[4] && x[4..][1] == x[5];
    }
  }

  lemma SecondsMinus(x: Text)
    requires IsSeconds(x)
    ensures '-' !in x
  {
    forall k | 0 <= k < |x|
      ensures x[k] != '-'
    {
      if 1 <= k < 3 {
        assert x[1..][..2][k - 1] == x[k];
        assert |x| > 4 ==> x[1..3][k - 1] == x[k];
        assert |x| == 3 ==> x[1..][k - 1] == x[k];
      } else if k >= 4 {
        assert x[4..][k - 4] == x[k];
      }
    }
  }

  lemma ClockMinus(x: Text)
    requires IsClock(x)
    ensures MinusAfterDigit(x) && x != [] && IsDigit(x[0])
  {
    var h, k :| ClockAt(x, h, k);
    forall j | 0 < j < |x| && x[j] == '-'
      ensures IsDigit(x[j - 1])
    {
      MinusInClock(x, h, k, j);
    }
    assert x[..h][0] == x[0];
  }

  lemma ClockStart(x: Text, h: int, k: int)
    requires ClockAt(x, h, k)
    ensures forall j :: 0 <= j < k ==> x[j] != '-'
  {
    SecondsMinus(x[h + 3..k]);
    forall j | 0 <= j < k
      ensures x[j] != '-'
    {
      if j < h {
        assert x[..h][j] == x[j];
      } else if h < j < h + 3 {
        assert x[h + 1..h + 3][j - h - 1] == x[j];
      } else if j >= h + 3 {
        assert x[h + 3..k][j - h - 3] == x[j];
      }
    }
  }

  lemma MinusInClock(x: Text, h: int, k: int, j: int)
    requires ClockAt(x, h, k) && 0 < j < |x| && x[j] == '-'
    ensures IsDigit(x[j - 1])
  {
    ClockStart(x, h, k);
    SecondsEndInDigit(x, h, k);
    OffsetMinus(x[k..]);
    forall i | k < i < |x|
      ensures x[i] != '-'
    {
      assert x[k..][i - k] == x[i];
    }
    assert j == k;
  }

  lemma SecondsEndInDigit(x: Text, h: int, k: int)
    requires ClockAt(x, h, k)
    ensures IsDigit(x[k - 1])
  {
    var seconds := x[h + 3..k];
    if k == h + 3 {
      assert x[h + 1..h + 3][1] == x[k - 1];
    } else {
      assert seconds[|seconds| - 1] == x[k - 1];
      if |seconds| == 3 {
        assert seconds[1..][1] == seconds[2];
      } else {
        assert seconds[4..][|seconds| - 5] == seconds[|seconds| - 1];
      }
    }
  }

  lemma DateMinus(x: Text)
    requires IsDate(x)
    ensures MinusAfterDigit(x)
  {
    assert x[..4][3] == x[3] && x[5..7][1] == x[6];
    assert x[..4][1] == x[1] && x[..4][2] == x[2] && x[5..7][0] == x[5] && x[8..][0] == x[8] && x[8..][1] == x[9];
  }

  lemma TimestampMinus(x: Text)
    requires IsTimestamp(x)
    ensures MinusAfterDigit(x)
  {
    hide IsDate, IsClock;
    if IsDate(x) {
      DateMinus(x);
    } else if IsClock(x) {
      ClockMinus(x);
    } else {
      DateMinus(x[..10]);
      ClockMinus(x[11..]);
      assert x[11..][0] == x[11];
      forall j | 0 < j < |x| && x[j] == '-'
        ensures IsDigit(x[j - 1])
      {
        if j < 10 {
          assert x[..10][j] == x[j] && x[..10][j - 1] == x[j - 1];
        } else if j > 11 {
          assert x[11..][j - 11] == x[j] && x[11..][j - 12] == x[j - 1];
        }
      }
    }
  }

  lemma NumberMinus(x: Text)
    requires IsNumber(x)
    ensures MinusAfterDigit(x)
  {
    var sign, whole :| NumberAt(x, sign, whole);
    forall j | 0 < j < |x|
      ensures x[j] != '-'
    {
      if sign <= j < whole {
        assert x[sign..whole][j - sign] == x[j];
      } else if j > whole {
        assert x[whole + 1..][j - whole - 1] == x[j];
      }
    }
  }

  /** What the token at `i` says of the minuses in it. */
  lemma TokenMinus(alnum: char -> bool, s: Text, i: nat)
    requires i < |s|
    ensures MinusAfterDigit(NextToken(alnum, s, i).text)
    ensures NextToken(alnum, s, i).Number? && Signs(NextToken(alnum, s, i).text) <==> Signed(alnum, s, i)
  {
    hide IsTimestamp, IsNumber;
    var t := NextToken(alnum, s, i);
    NextTokenMeetsTheGrammar(alnum, s, i);
    if t.Stamp? {
      TimestampMinus(t.text);
    } else if t.Number? {
      NumberMinus(t.text);
    }
    MatchTimestampBounds(alnum, s, i);
    assert t.text[0] == s[i];
  }

  /** From a token boundary on, signed numbers are read exactly where a minus is a sign. */
  lemma {:induction false} SignsFrom(alnum: char -> bool, s: Text, j: nat, i: nat)
    requires AlnumOk(alnum) && j <= i < |s|
    ensures SignedNumberAt(Scan(alnum, s, j), i - j) <==> Signed(alnum, s, i)
    decreases |s| - j
  {
    hide NextToken, Scan, Concat, MatchTimestamp;
    var t := NextToken(alnum, s, j);
    var next := j + |t.text|;
    var rest := Scan(alnum, s, next);
    TokenMinus(alnum, s, j);
    ScanCons(alnum, s, j, t);
    if i == j {
      FirstSignedNumber(t, rest);
    } else if next <= i {
      LaterSignedNumber(t, rest, i - j);
      if next < |s| {
        SignsFrom(alnum, s, next, i);
      }
    } else {
      LaterSignedNumber(t, rest, i - j);
      if s[i] == '-' {
        assert t.text[i - j] == '-' && t.text[i - j - 1] == s[i - 1];
      }
    }
  }

  lemma {:induction false} FirstSignedNumber(t: Token, rest: seq<Token>)
    requires t.text != []
    ensures SignedNumberAt([t] + rest, 0) <==> t.Number? && Signs(t.text)
  {
    var tokens := [t] + rest;
    assert tokens[..0] == [] && Concat(tokens[..0]) == [];
    forall k | 0 < k < |tokens|
      ensures |Concat(tokens[..k])| > 0
    {
      assert tokens[..k][0] == t;
    }
  }

  /** Where a token starts, with one more token in front. */
  lemma {:induction false} StartShift(t: Token, rest: seq<Token>, k: nat)
    requires k < |rest|
    ensures ([t] + rest)[k + 1] == rest[k]
    ensures |Concat(([t] + rest)[..k + 1])| == |t.text| + |Concat(rest[..k])|
  {
    var front := ([t] + rest)[..k + 1];
    assert front[0] == t && front[1..] == rest[..k];
  }

  lemma {:induction false} LaterSignedNumber(t: Token, rest: seq<Token>, i: nat)
    requires 0 < i && t.text != []
    ensures SignedNumberAt([t] + rest, i) <==> i >= |t.text| && SignedNumberAt(rest, i - |t.text|)
  {
    hide Concat, Signs;
    var tokens := [t] + rest;
    if SignedNumberAt(tokens, i) {
      var k :| 0 <= k < |tokens| && |Concat(tokens[..k])| == i && tokens[k].Number? && Signs(tokens[k].text);
      NoText(tokens);
      StartShift(t, rest, k - 1);
    }
    if i >= |t.text| && SignedNumberAt(rest, i - |t.text|) {
      var k :| 0 <= k < |rest| && |Concat(rest[..k])| == i - |t.text| && rest[k].Number? && Signs(rest[k].text);
      StartShift(t, rest, k);
      assert |Concat(tokens[..k + 1])| == i;
    }
  }

  lemma NoText(tokens: seq<Token>)
    ensures |Concat(tokens[..0])| == 0
  {
  }

  /**
   The sign rule, over a whole scan: a number with a sign is read at a place exactly when a
   minus stands there, a digit follows that starts no timestamp, and no letter or digit comes
   before. No other token ever takes in such a minus, and a hyphen is never a sign.
   */
  lemma {:induction false} SignsExactly(alnum: char -> bool, s: Text, i: nat)
    requires AlnumOk(alnum) && i < |s|
    ensures SignedNumberAt(Scan(alnum, s, 0), i) <==>
            && s[i] == '-' && i + 1 < |s| && IsDigit(s[i + 1])
            && (i > 0 ==> !alnum(s[i - 1]))
            && MatchTimestamp(alnum, s, i + 1).None?
  {
    hide Scan, MatchTimestamp, SignedNumberAt;
    SignsFrom(alnum, s, 0, i);
  }
}
