/**
 The scanner reads everything the grammar says: between breaks, a date, a clock time, both, or
 a number is one token of that kind, and what stands on either side is read on its own.
 */
module GrammarReading {
  import opened Options
  import opened TemplateMasking
  import opened MaskingTheorems
  import opened ScanLocality
  import opened DateTimes

  // ----- a timestamp read alone -----

  lemma ClockAlone(alnum: char -> bool, x: Text)
    requires IsClock(x)
    ensures MatchTime(alnum, x, 0) == Some(|x|) && IsDigit(x[0])
  {
    var h, k :| ClockAt(x, h, k);
    hide SecondsEnd, MatchOffset, IsOffset, IsSeconds;
    assert x[..h] == x[0..h];
    DigitsIn(x, 0, h);
    DigitsIn(x, h + 1, h + 3);
    RunEnds(x, 0, h);
    if x[k..] != [] {
      OffsetAlone(alnum, x, k);
    } else {
      NoOffsetAtEnd(alnum, x);
    }
    ClockSeconds(x, h + 3, k);
  }

  lemma NoOffsetAtEnd(alnum: char -> bool, x: Text)
    ensures MatchOffset(alnum, x, |x|).None?
  {
  }

  lemma SecondsDigits(y: Text)
    requires IsSeconds(y) && y != []
    ensures |y| >= 3 && IsDigit(y[1]) && IsDigit(y[2])
  {
    if |y| == 3 {
      assert y[1..][0] == y[1] && y[1..][1] == y[2];
    } else {
      assert y[1..3][0] == y[1] && y[1..3][1] == y[2];
    }
  }

  lemma ClockSeconds(x: Text, a: nat, k: nat)
    requires a <= k <= |x| && IsSeconds(x[a..k])
    requires k < |x| ==> !IsDigit(x[k]) && x[k] != ':' && x[k] != '.'
    ensures SecondsEnd(x, a) == k
  {
    var y := x[a..k];
    if y != [] {
      assert y[0] == x[a];
      SecondsDigits(y);
      assert y[1] == x[a + 1] && y[2] == x[a + 2];
      if |y| != 3 {
        assert y[3] == x[a + 3] && y[4..] == x[a + 4..k];
        DigitsIn(x, a + 4, k);
        RunEnds(x, a + 4, k);
      }
    }
  }

  lemma DateOnly(x: Text)
    requires IsDate(x)
    ensures MatchDate(x, 0) == Some(10) && IsDigit(x[0]) && x[4] == '-'
  {
    assert x[..4] == x[0..4] && x[8..] == x[8..10];
    DigitsIn(x, 0, 4);
    DigitsIn(x, 5, 7);
    DigitsIn(x, 8, 10);
  }

  lemma ClockIsNoDate(x: Text)
    requires IsClock(x)
    ensures MatchDate(x, 0).None?
  {
    var h, k :| ClockAt(x, h, k);
    assert x[h] == ':' && h < 4;
  }

  /** A timestamp of the grammar, read where nothing follows. */
  lemma {:induction false} TimestampAlone(alnum: char -> bool, x: Text)
    requires IsTimestamp(x)
    ensures MatchTimestamp(alnum, x, 0) == Some(|x|) && IsDigit(x[0])
  {
    hide MatchTime, MatchDate, IsClock;
    if IsDate(x) {
      DateOnly(x);
    } else if IsClock(x) {
      ClockAlone(alnum, x);
      ClockIsNoDate(x);
    } else {
      DateAndClock(alnum, x);
    }
  }

  lemma {:induction false} DateAndClock(alnum: char -> bool, x: Text)
    requires |x| > 11 && IsDate(x[..10]) && (x[10] == 't' || x[10] == ' ') && IsClock(x[11..])
    ensures MatchDate(x, 0) == Some(10) && MatchTime(alnum, x, 11) == Some(|x|) && IsDigit(x[0])
  {
    hide IsClock, MatchTime;
    DateAlone(x);
    ClockAlone(alnum, x[11..]);
    assert Embeds(x[11..], x, 11);
    TimeEmbed(alnum, x[11..], x, 11, 0);
    DigitsIn(x, 0, 0);
    assert x[0] == x[..10][..4][0];
  }

  // ----- a token of the grammar, read where something follows -----

  /** A break may follow, but a date must not be followed by a space and a clock time: that would be one timestamp. */
  ghost predicate MayFollow(alnum: char -> bool, x: Text, post: Text) {
    post != [] ==>
      && Break(alnum, post[0])
      && (IsDate(x) && post[0] == ' ' ==> MatchTime(alnum, post, 1).None?)
  }

  /** In the same way, a clock time must not be the end of a timestamp that starts before it. */
  ghost predicate MayPrecede(alnum: char -> bool, pre: Text, rest: Text) {
    && Cut(alnum, pre)
    && (pre != [] && pre[|pre| - 1] == ' ' && EndsInDigit(pre[..|pre| - 1]) ==> MatchTime(alnum, rest, 0).None?)
  }

  lemma {:induction false} TimestampInFront(alnum: char -> bool, x: Text, post: Text)
    requires AlnumOk(alnum) && IsTimestamp(x) && MayFollow(alnum, x, post)
    ensures NextToken(alnum, x + post, 0) == Stamp(x)
  {
    var v := x + post;
    assert Embeds(x, v, 0) && NoWordAfter(alnum, x, v, 0);
    TimestampAlone(alnum, x);
    StampEnds(alnum, x, post);
    hide MatchTimestamp, IsTimestamp, IsDate;
    assert v[0] == x[0] && v[0..|x|] == x;
  }

  /** What follows does not change how far the timestamp reaches. */
  lemma {:induction false} StampEnds(alnum: char -> bool, x: Text, post: Text)
    requires AlnumOk(alnum) && IsTimestamp(x) && MayFollow(alnum, x, post)
    ensures MatchTimestamp(alnum, x + post, 0) == Some(|x|)
  {
    hide MatchTime, MatchDate, IsClock;
    var v := x + post;
    assert Embeds(x, v, 0) && NoWordAfter(alnum, x, v, 0);
    DateEmbed(x, v, 0, 0);
    TimeEmbed(alnum, x, v, 0, 0);
    if IsDate(x) {
      DateOnly(x);
      if post != [] {
        assert v[10] == post[0];
        assert Embeds(post, v, 10);
        if post[0] == ' ' {
          TimeEmbed(alnum, post, v, 10, 1);
        }
      }
    } else if IsClock(x) {
      ClockAlone(alnum, x);
      ClockIsNoDate(x);
    } else {
      DateAndClock(alnum, x);
      TimeEmbed(alnum, x, v, 0, 11);
      assert v[10] == x[10];
    }
  }

  // ----- numbers -----

  lemma NumberLayout(x: Text, sign: int, whole: int)
    requires NumberAt(x, sign, whole)
    ensures forall k :: sign <= k < whole ==> IsDigit(x[k])
    ensures forall k :: whole < k < |x| ==> IsDigit(x[k])
    ensures whole < |x| ==> x[whole] == '.' && whole + 1 < |x|
  {
    DigitsIn(x, sign, whole);
    if whole < |x| {
      assert x[whole + 1..] == x[whole + 1..|x|];
      DigitsIn(x, whole + 1, |x|);
    }
  }

  /** There is no colon in a number and no minus but the first: no timestamp starts at its sign or at its digits. */
  lemma {:induction false} NumberIsNoStamp(alnum: char -> bool, x: Text, post: Text, sign: int, whole: int)
    requires AlnumOk(alnum) && NumberAt(x, sign, whole) && (post != [] ==> Break(alnum, post[0]))
    ensures MatchTimestamp(alnum, x + post, 0).None? && MatchTimestamp(alnum, x + post, sign).None?
  {
    NumberLayout(x, sign, whole);
    var v := x + post;
    assert Embeds(x, v, 0) && NoWordAfter(alnum, x, v, 0);
    if sign == 1 {
      MatchTimestampBounds(alnum, v, 0);
      assert v[0] == x[0] == '-';
    }
    RunEnds(x, sign, whole);
    NoDateInNumber(x, sign, whole);
    DateEmbed(x, v, 0, sign);
    TimeEmbed(alnum, x, v, 0, sign);
  }

  lemma NoDateInNumber(x: Text, sign: int, whole: int)
    requires NumberAt(x, sign, whole)
    ensures MatchDate(x, sign).None?
  {
    NumberLayout(x, sign, whole);
    assert sign + 4 < |x| ==> x[sign + 4] != '-';
  }

  lemma {:induction false} NumberInFront(alnum: char -> bool, x: Text, post: Text)
    requires AlnumOk(alnum) && IsNumber(x) && (post != [] ==> Break(alnum, post[0]))
    ensures NextToken(alnum, x + post, 0) == Number(x)
  {
    var sign, whole :| NumberAt(x, sign, whole);
    NumberLayout(x, sign, whole);
    NumberIsNoStamp(alnum, x, post, sign, whole);
    var v := x + post;
    assert Embeds(x, v, 0) && v[0] == x[0] && v[sign] == x[sign];
    assert Signed(alnum, v, 0) <==> sign == 1;
    NumberEndEmbed(x, v, 0, 0, sign == 1);
    NumberEndAlone(x, sign, whole);
    hide MatchTimestamp, NumberEnd, NumberAt;
    assert v[0..|x|] == x;
  }

  lemma NumberEndAlone(x: Text, sign: int, whole: int)
    requires NumberAt(x, sign, whole)
    ensures DigitAt(x, sign) && NumberEnd(x, 0, sign == 1) == |x|
  {
    NumberLayout(x, sign, whole);
    RunEnds(x, sign, whole);
    if whole < |x| {
      RunEnds(x, whole + 1, |x|);
    }
  }

  // ----- any token of the grammar, in its place -----

  ghost function TokenOf(x: Text): Token {
    if IsTimestamp(x) then Stamp(x) else Number(x)
  }

  /**
   Reading is exact: whatever the grammar calls a timestamp or a number, standing between
   breaks or text ends, is one token of that kind, and the text on either side is read on its
   own. The one exception is a date and a clock time with a space between them, which is one
   timestamp.
   */
  lemma {:induction false} GrammarIsRead(alnum: char -> bool, pre: Text, x: Text, post: Text)
    requires AlnumOk(alnum) && (IsTimestamp(x) || IsNumber(x))
    requires MayPrecede(alnum, pre, x + post) && MayFollow(alnum, x, post)
    ensures Scan(alnum, pre + x + post, 0) == Scan(alnum, pre, 0) + [TokenOf(x)] + Scan(alnum, post, 0)
  {
    hide NextToken, Scan, MatchTime, IsTimestamp, IsNumber, IsDate;
    if IsTimestamp(x) {
      TimestampInFront(alnum, x, post);
    } else {
      NumberInFront(alnum, x, post);
    }
    TokenThenRest(alnum, x, post);
    ScanAfterCut(alnum, pre, x + post);
    assert pre + x + post == pre + (x + post);
    Assoc(Scan(alnum, pre, 0), [TokenOf(x)], Scan(alnum, post, 0));
  }

  lemma {:induction false} TokenThenRest(alnum: char -> bool, x: Text, post: Text)
    requires AlnumOk(alnum) && (post != [] ==> Break(alnum, post[0]))
    requires x + post != [] && NextToken(alnum, x + post, 0) == TokenOf(x)
    ensures Scan(alnum, x + post, 0) == [TokenOf(x)] + Scan(alnum, post, 0)
  {
    hide NextToken, IsTimestamp;
    ScanCons(alnum, x + post, 0, TokenOf(x));
    ScanSuffix(alnum, x, post);
  }

  // ----- and it reads no further -----

  /** What ends here is not cut off in the middle of a number, nor, after the `z` of an offset, in the middle of a word. */
  predicate EndsCleanly(alnum: char -> bool, s: Text, end: nat) {
    !DigitAt(s, end) && (0 < end < |s| && s[end - 1] == 'z' ==> !alnum(s[end]))
  }

  lemma OffsetEnds(alnum: char -> bool, s: Text, i: nat)
    requires AlnumOk(alnum) && MatchOffset(alnum, s, i).Some?
    ensures EndsCleanly(alnum, s, MatchOffset(alnum, s, i).value)
  {
    MatchOffsetBounds(alnum, s, i);
  }

  lemma SecondsEndInDigits(s: Text, i: nat)
    requires 0 < i <= |s| && IsDigit(s[i - 1])
    ensures 0 < SecondsEnd(s, i) <= |s| && IsDigit(s[SecondsEnd(s, i) - 1])
  {
    if CharAt(s, i, ':') && FixedDigits(s, i + 1, 2).Some? {
      assert IsDigit(s[i + 2]);
      if CharAt(s, i + 3, '.') && DigitAt(s, i + 4) {
        var end := DigitsEnd(s, i + 4);
        assert DigitAt(s, end - 1);
      }
    }
  }

  lemma TimeEnds(alnum: char -> bool, s: Text, i: nat)
    requires AlnumOk(alnum) && MatchTime(alnum, s, i).Some?
    ensures EndsCleanly(alnum, s, MatchTime(alnum, s, i).value)
  {
    hide MatchOffset, SecondsEnd, AlnumOk;
    var minutes := DigitsEnd(s, i) + 3;
    assert FixedDigits(s, minutes - 2, 2) == Some(minutes);
    SecondsEndInDigits(s, minutes);
    var index := SecondsEnd(s, minutes);
    if MatchOffset(alnum, s, index).Some? {
      OffsetEnds(alnum, s, index);
    }
  }

  lemma DateEnds(alnum: char -> bool, s: Text, i: nat)
    requires MatchDate(s, i).Some?
    ensures EndsCleanly(alnum, s, MatchDate(s, i).value)
  {
  }

  lemma StampEndsCleanly(alnum: char -> bool, s: Text, i: nat)
    requires AlnumOk(alnum) && MatchTimestamp(alnum, s, i).Some?
    ensures EndsCleanly(alnum, s, MatchTimestamp(alnum, s, i).value)
  {
    hide MatchTime, MatchDate, AlnumOk;
    var date := MatchDate(s, i);
    if date.Some? {
      DateEnds(alnum, s, i);
      if MatchTime(alnum, s, date.value + 1).Some? {
        TimeEnds(alnum, s, date.value + 1);
      }
    } else {
      TimeEnds(alnum, s, i);
    }
  }

  lemma NumberEndsCleanly(s: Text, i: nat, signed: bool)
    requires DigitAt(s, if signed then i + 1 else i)
    ensures !DigitAt(s, NumberEnd(s, i, signed))
  {
  }

  lemma TokenEnds(alnum: char -> bool, s: Text, i: nat)
    requires AlnumOk(alnum) && i < |s|
    ensures var t := NextToken(alnum, s, i);
            && (t.Stamp? ==> EndsCleanly(alnum, s, i + |t.text|))
            && (t.Number? ==> !DigitAt(s, i + |t.text|))
  {
    hide MatchTimestamp, AlnumOk, EndsCleanly, NumberEnd;
    MatchTimestampBounds(alnum, s, i);
    if MatchTimestamp(alnum, s, i).Some? {
      StampEndsCleanly(alnum, s, i);
    }
    if DigitAt(s, i) {
      NumberEndsCleanly(s, i, false);
    }
    if DigitAt(s, i + 1) {
      NumberEndsCleanly(s, i, true);
    }
  }

  /** No token starts in the middle of what another one is part of. */
  ghost predicate Apart(alnum: char -> bool, t: Token, next: Token) {
    && (!t.Plain? && next.text != [] ==> !IsDigit(next.text[0]))
    && (t.Stamp? && t.text != [] && t.text[|t.text| - 1] == 'z' && next.text != [] ==> !alnum(next.text[0]))
  }

  /**
   Tokens are whole: no digit follows a number or a timestamp, so neither ends in the middle of
   a run of digits, and no letter or digit follows a timestamp that ends in `z`.
   */
  lemma {:induction false} TokensAreWhole(alnum: char -> bool, s: Text, i: nat)
    requires AlnumOk(alnum) && i <= |s|
    ensures forall k :: 0 < k < |Scan(alnum, s, i)| ==> Apart(alnum, Scan(alnum, s, i)[k - 1], Scan(alnum, s, i)[k])
    decreases |s| - i
  {
    hide NextToken, AlnumOk, Scan, Apart;
    if i < |s| {
      var t := NextToken(alnum, s, i);
      var next := i + |t.text|;
      var rest := Scan(alnum, s, next);
      ScanCons(alnum, s, i, t);
      TokensAreWhole(alnum, s, next);
      if next < |s| {
        ScanCons(alnum, s, next, NextToken(alnum, s, next));
        NextIsApart(alnum, s, i);
      } else {
        NothingRead(alnum, s);
      }
      forall k | 0 < k < |[t] + rest|
        ensures Apart(alnum, ([t] + rest)[k - 1], ([t] + rest)[k])
      {
        assert ([t] + rest)[k] == rest[k - 1];
        assert k > 1 ==> ([t] + rest)[k - 1] == rest[k - 2];
      }
    } else {
      NothingRead(alnum, s);
    }
  }

  lemma NextIsApart(alnum: char -> bool, s: Text, i: nat)
    requires AlnumOk(alnum) && i < |s| && i + |NextToken(alnum, s, i).text| < |s|
    ensures Apart(alnum, NextToken(alnum, s, i), NextToken(alnum, s, i + |NextToken(alnum, s, i).text|))
  {
    hide NextToken, AlnumOk;
    var t := NextToken(alnum, s, i);
    var next := NextToken(alnum, s, i + |t.text|);
    TokenEnds(alnum, s, i);
    assert next.text[0] == s[i + |t.text|];
    assert t.text[|t.text| - 1] == s[i + |t.text| - 1];
  }
}
