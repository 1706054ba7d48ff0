/**
 Every date-time of section 5.6 of RFC 3339 that stands between spaces, other breaks or
 text ends is masked as one `<t>`, and the text on either side is masked as if it stood alone.
 */
module DateTimes {
  import opened Options
  import opened TemplateMasking
  import opened MaskingTheorems
  import opened ScanLocality

  /** Hours, minutes and seconds, an optional fraction that ends at `k`, then an offset. */
  ghost predicate FullTimeAt(x: Text, k: int) {
    && 19 <= k < |x|
    && Digits(x[11..13]) && x[13] == ':' && Digits(x[14..16]) && x[16] == ':' && Digits(x[17..19])
    && (k == 19 || (k > 20 && x[19] == '.' && Digits(x[20..k])))
    && IsOffset(x[k..])
  }

  /**
   A date-time in lower case: full date, `t` or the space that section 5.6 allows in its
   place, and full time.
   */
  ghost predicate IsDateTime(x: Text) {
    && |x| >= 20
    && IsDate(x[..10])
    && (x[10] == 't' || x[10] == ' ')
    && exists k :: FullTimeAt(x, k)
  }

  // ----- a date-time read alone -----

  lemma DigitsIn(x: Text, a: nat, b: nat)
    requires a <= b <= |x| && Digits(x[a..b])
    ensures forall k :: a <= k < b ==> IsDigit(x[k])
  {
    forall k | a <= k < b
      ensures IsDigit(x[k])
    {
      assert x[k] == x[a..b][k - a];
    }
  }

  lemma {:induction false} RunEnds(s: Text, a: nat, b: nat)
    requires a <= b <= |s| && (forall k :: a <= k < b ==> IsDigit(s[k])) && !DigitAt(s, b)
    ensures DigitsEnd(s, a) == b
    decreases b - a
  {
    if a < b {
      RunEnds(s, a + 1, b);
    }
  }

  lemma DateAlone(x: Text)
    requires |x| >= 11 && IsDate(x[..10]) && !IsDigit(x[10])
    ensures MatchDate(x, 0) == Some(10) && DigitsEnd(x, 0) == 4
  {
    var y := x[..10];
    assert y[..4] == x[0..4] && y[5..7] == x[5..7] && y[8..] == x[8..10];
    DigitsIn(x, 0, 4);
    DigitsIn(x, 5, 7);
    DigitsIn(x, 8, 10);
    assert x[4] == y[4] && x[7] == y[7];
    RunEnds(x, 0, 4);
  }

  lemma OffsetAlone(alnum: char -> bool, x: Text, k: nat)
    requires k < |x| && IsOffset(x[k..])
    ensures MatchOffset(alnum, x, k) == Some(|x|) && !IsDigit(x[k]) && x[k] != ':' && x[k] != '.'
  {
    var y := x[k..];
    assert x[k] == y[0];
    if y != "z" {
      assert y[1..3] == x[k + 1..k + 3] && y[4..] == x[k + 4..k + 6];
      DigitsIn(x, k + 1, k + 3);
      DigitsIn(x, k + 4, k + 6);
      assert x[k + 3] == y[3];
    }
  }

  lemma SecondsAlone(x: Text, k: nat)
    requires FullTimeAt(x, k) && !IsDigit(x[k]) && x[k] != '.'
    ensures SecondsEnd(x, 16) == k
  {
    DigitsIn(x, 17, 19);
    if k != 19 {
      DigitsIn(x, 20, k);
      RunEnds(x, 20, k);
    }
  }

  lemma TimeAlone(alnum: char -> bool, x: Text, k: nat)
    requires FullTimeAt(x, k)
    ensures MatchTime(alnum, x, 11) == Some(|x|)
  {
    hide SecondsEnd, MatchOffset, IsOffset;
    DigitsIn(x, 11, 13);
    DigitsIn(x, 14, 16);
    RunEnds(x, 11, 13);
    OffsetAlone(alnum, x, k);
    SecondsAlone(x, k);
  }

  // ----- a date-time in its place -----

  /** At the front of any text that goes on with a space, a date-time is one timestamp token. */
  lemma DateTimeToken(alnum: char -> bool, x: Text, post: Text)
    requires AlnumOk(alnum) && IsDateTime(x) && (post != [] ==> Break(alnum, post[0]))
    ensures NextToken(alnum, x + post, 0) == Stamp(x)
    ensures MatchTime(alnum, x + post, 0).None?
  {
    var v := x + post;
    assert Embeds(x, v, 0);
    var k :| FullTimeAt(x, k);
    DateAlone(x);
    TimeAlone(alnum, x, k);
    DateEmbed(x, v, 0, 0);
    TimeEmbed(alnum, x, v, 0, 11);
    DigitsEndEmbed(x, v, 0, 0);
    assert v[10] == x[10];
    assert IsDigit(v[0]) by {
      assert x[0] == x[..10][..4][0];
    }
    assert v[0..|x|] == x;
    FrontToken(alnum, v, |x|);
  }

  lemma FrontToken(alnum: char -> bool, v: Text, end: nat)
    requires 0 < end <= |v| && IsDigit(v[0]) && MatchDate(v, 0) == Some(10) && DigitsEnd(v, 0) == 4
    requires CharAt(v, 10, 't') || CharAt(v, 10, ' ')
    requires MatchTime(alnum, v, 11) == Some(end)
    ensures NextToken(alnum, v, 0) == Stamp(v[0..end])
    ensures MatchTime(alnum, v, 0).None?
  {
    hide MatchDate;
    assert !Signed(alnum, v, 0);
  }

  lemma {:induction false} ScanFromDateTime(alnum: char -> bool, x: Text, post: Text)
    requires AlnumOk(alnum) && IsDateTime(x) && (post != [] ==> Break(alnum, post[0]))
    ensures Scan(alnum, x + post, 0) == [Stamp(x)] + Scan(alnum, post, 0)
  {
    hide NextToken, IsDateTime;
    DateTimeToken(alnum, x, post);
    ScanCons(alnum, x + post, 0, Stamp(x));
    ScanSuffix(alnum, x, post);
  }

  /**
   Masking a date-time, whatever surrounds it: the tokens before, one timestamp token that
   is the whole date-time, and the tokens after, each part read as if it stood alone.
   */
  lemma {:induction false} DateTimeIsOneTimestamp(alnum: char -> bool, pre: Text, x: Text, post: Text)
    requires AlnumOk(alnum) && IsDateTime(x)
    requires Cut(alnum, pre) && (post != [] ==> Break(alnum, post[0]))
    ensures Scan(alnum, pre + x + post, 0) == Scan(alnum, pre, 0) + [Stamp(x)] + Scan(alnum, post, 0)
  {
    hide NextToken, Scan, MatchTime, IsDateTime;
    DateTimeToken(alnum, x, post);
    ScanAfterCut(alnum, pre, x + post);
    ScanFromDateTime(alnum, x, post);
    assert pre + x + post == pre + (x + post);
    Assoc(Scan(alnum, pre, 0), [Stamp(x)], Scan(alnum, post, 0));
  }

  /** So the date-time shows as exactly one `<t>` and adds nothing to the numbers. */
  lemma DateTimeMasked(alnum: char -> bool, pre: Text, x: Text, post: Text)
    requires AlnumOk(alnum) && IsDateTime(x)
    requires Cut(alnum, pre) && (post != [] ==> Break(alnum, post[0]))
    ensures Template(Scan(alnum, pre + x + post, 0)) ==
            Template(Scan(alnum, pre, 0)) + "<t>" + Template(Scan(alnum, post, 0))
    ensures Numbers(Scan(alnum, pre + x + post, 0)) ==
            Numbers(Scan(alnum, pre, 0)) + Numbers(Scan(alnum, post, 0))
  {
    hide Scan, Template, Numbers, IsDateTime;
    DateTimeIsOneTimestamp(alnum, pre, x, post);
    var a, b := Scan(alnum, pre, 0), Scan(alnum, post, 0);
    Extend(a, Stamp(x));
    TemplateAppend(a + [Stamp(x)], b);
    NumbersAppend(a + [Stamp(x)], b);
    assert Numbers(a) + [] == Numbers(a);
  }
}
