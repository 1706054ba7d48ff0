/**
 Two texts of one shape, that is, equal except that digits may differ from digits, are
 read alike: same token boundaries, same template, and numbers that differ exactly where
 a digit inside a number differs.
 */
module DigitShape {
  import opened Options
  import opened TemplateMasking
  import opened MaskingTheorems

  ghost predicate SameShape(s: Text, t: Text) {
    && |s| == |t|
    && forall i :: 0 <= i < |s| ==> SameSort(s[i], t[i])
  }

  predicate SameSort(c: char, d: char) {
    c == d || (IsDigit(c) && IsDigit(d))
  }

  // ----- every matcher sees the shape only -----

  lemma AtShape(s: Text, t: Text, i: nat)
    requires SameShape(s, t)
    ensures DigitAt(s, i) == DigitAt(t, i)
    ensures forall c :: !IsDigit(c) ==> CharAt(s, i, c) == CharAt(t, i, c)
  {
    assert i < |s| ==> SameSort(s[i], t[i]);
  }

  lemma {:induction false} DigitsEndShape(s: Text, t: Text, i: nat)
    requires SameShape(s, t)
    ensures DigitsEnd(s, i) == DigitsEnd(t, i)
    decreases |s| - i
  {
    AtShape(s, t, i);
    if DigitAt(s, i) {
      DigitsEndShape(s, t, i + 1);
    }
  }

  lemma FixedShape(s: Text, t: Text, i: nat, count: nat)
    requires SameShape(s, t)
    ensures FixedDigits(s, i, count) == FixedDigits(t, i, count)
  {
    assert forall k :: 0 <= k < |s| ==> IsDigit(s[k]) == IsDigit(t[k]) by {
      forall k | 0 <= k < |s|
        ensures IsDigit(s[k]) == IsDigit(t[k])
      {
        assert SameSort(s[k], t[k]);
      }
    }
  }

  lemma DateShape(s: Text, t: Text, i: nat)
    requires SameShape(s, t)
    ensures MatchDate(s, i) == MatchDate(t, i)
  {
    FixedShape(s, t, i, 4);
    AtShape(s, t, i + 4);
    FixedShape(s, t, i + 5, 2);
    AtShape(s, t, i + 7);
    FixedShape(s, t, i + 8, 2);
    AtShape(s, t, i + 10);
  }

  lemma AlnumShape(alnum: char -> bool, s: Text, t: Text, i: nat)
    requires SameShape(s, t) && AlnumOk(alnum) && i < |s|
    ensures alnum(s[i]) == alnum(t[i])
  {
    assert SameSort(s[i], t[i]);
  }

  lemma OffsetShape(alnum: char -> bool, s: Text, t: Text, i: nat)
    requires SameShape(s, t) && AlnumOk(alnum)
    ensures MatchOffset(alnum, s, i) == MatchOffset(alnum, t, i)
  {
    AtShape(s, t, i);
    if i + 1 < |s| {
      AlnumShape(alnum, s, t, i + 1);
    }
    FixedShape(s, t, i + 1, 2);
    AtShape(s, t, i + 3);
    FixedShape(s, t, i + 4, 2);
    AtShape(s, t, i + 6);
  }

  lemma SecondsShape(s: Text, t: Text, i: nat)
    requires SameShape(s, t)
    ensures SecondsEnd(s, i) == SecondsEnd(t, i)
  {
    AtShape(s, t, i);
    FixedShape(s, t, i + 1, 2);
    AtShape(s, t, i + 3);
    AtShape(s, t, i + 4);
    DigitsEndShape(s, t, i + 4);
  }

  lemma TimeShape(alnum: char -> bool, s: Text, t: Text, i: nat)
    requires SameShape(s, t) && AlnumOk(alnum)
    ensures MatchTime(alnum, s, i) == MatchTime(alnum, t, i)
  {
    hide SecondsEnd, MatchOffset;
    DigitsEndShape(s, t, i);
    var hourEnd := DigitsEnd(s, i);
    AtShape(s, t, hourEnd);
    FixedShape(s, t, hourEnd + 1, 2);
    SecondsShape(s, t, hourEnd + 3);
    var index := SecondsEnd(s, hourEnd + 3);
    AtShape(s, t, index);
    OffsetShape(alnum, s, t, index);
  }

  lemma TimestampShape(alnum: char -> bool, s: Text, t: Text, i: nat)
    requires SameShape(s, t) && AlnumOk(alnum)
    ensures MatchTimestamp(alnum, s, i) == MatchTimestamp(alnum, t, i)
  {
    hide MatchDate, MatchTime;
    DateShape(s, t, i);
    TimeShape(alnum, s, t, i);
    if MatchDate(s, i).Some? {
      AtShape(s, t, MatchDate(s, i).value);
      TimeShape(alnum, s, t, MatchDate(s, i).value + 1);
    }
  }

  lemma SignedShape(alnum: char -> bool, s: Text, t: Text, i: nat)
    requires SameShape(s, t) && AlnumOk(alnum) && i < |s|
    ensures Signed(alnum, s, i) == Signed(alnum, t, i)
  {
    AtShape(s, t, i);
    AtShape(s, t, i + 1);
    if i > 0 {
      AlnumShape(alnum, s, t, i - 1);
    }
    TimestampShape(alnum, s, t, i + 1);
  }

  lemma NumberEndShape(s: Text, t: Text, i: nat, signed: bool)
    requires SameShape(s, t)
    requires DigitAt(s, if signed then i + 1 else i) && DigitAt(t, if signed then i + 1 else i)
    ensures NumberEnd(s, i, signed) == NumberEnd(t, i, signed)
  {
    var start := if signed then i + 1 else i;
    DigitsEndShape(s, t, start);
    var whole := DigitsEnd(s, start);
    AtShape(s, t, whole);
    AtShape(s, t, whole + 1);
    DigitsEndShape(s, t, whole + 1);
  }

  // ----- tokens of one kind and one length -----

  ghost predicate Alike(a: Token, b: Token) {
    && (a.Plain? <==> b.Plain?) && (a.Stamp? <==> b.Stamp?)
    && |a.text| == |b.text|
    && (a.Plain? ==> a == b)
  }

  lemma NextTokenShape(alnum: char -> bool, s: Text, t: Text, i: nat)
    requires SameShape(s, t) && AlnumOk(alnum) && i < |s|
    ensures Alike(NextToken(alnum, s, i), NextToken(alnum, t, i))
  {
    SignedShape(alnum, s, t, i);
    AtShape(s, t, i);
    TimestampShape(alnum, s, t, i);
    MatchTimestampBounds(alnum, s, i);
    var signed := Signed(alnum, s, i);
    if signed || IsDigit(s[i]) {
      NumberEndShape(s, t, i, signed);
    } else {
      assert SameSort(s[i], t[i]);
    }
  }

  ghost predicate AllAlike(a: seq<Token>, b: seq<Token>) {
    && |a| == |b|
    && (a != [] ==> Alike(a[0], b[0]) && AllAlike(a[1..], b[1..]))
  }

  lemma AlikeCons(x: Token, y: Token, a: seq<Token>, b: seq<Token>)
    requires Alike(x, y) && AllAlike(a, b)
    ensures AllAlike([x] + a, [y] + b)
  {
    assert ([x] + a)[1..] == a && ([y] + b)[1..] == b;
  }

  lemma {:induction false} ScanShape(alnum: char -> bool, s: Text, t: Text, i: nat)
    requires SameShape(s, t) && AlnumOk(alnum) && i <= |s|
    ensures AllAlike(Scan(alnum, s, i), Scan(alnum, t, i))
    decreases |s| - i
  {
    hide NextToken, Scan, AlnumOk;
    NothingRead(alnum, s);
    NothingRead(alnum, t);
    if i < |s| {
      var x, y := NextToken(alnum, s, i), NextToken(alnum, t, i);
      NextTokenShape(alnum, s, t, i);
      var j := i + |x.text|;
      ScanShape(alnum, s, t, j);
      AlikeCons(x, y, Scan(alnum, s, j), Scan(alnum, t, j));
      ScanStep(alnum, s, i);
      ScanStep(alnum, t, i);
    }
  }

  lemma {:induction false} AlikeTemplates(a: seq<Token>, b: seq<Token>)
    requires AllAlike(a, b)
    ensures Template(a) == Template(b)
    ensures |Concat(a)| == |Concat(b)|
  {
    if a != [] {
      assert Alike(a[0], b[0]);
      AlikeTemplates(a[1..], b[1..]);
    }
  }

  /** For each character of the text, whether it lies inside a number token. */
  function InNumber(tokens: seq<Token>): seq<bool> {
    if tokens == [] then []
    else seq(|tokens[0].text|, k => tokens[0].Number?) + InNumber(tokens[1..])
  }

  lemma {:induction false} InNumberLength(tokens: seq<Token>)
    ensures |InNumber(tokens)| == |Concat(tokens)|
  {
    if tokens != [] {
      InNumberLength(tokens[1..]);
    }
  }

  ghost predicate AgreeWhere(mask: seq<bool>, s: Text, t: Text) {
    forall i :: 0 <= i < |mask| && i < |s| && i < |t| && mask[i] ==> s[i] == t[i]
  }

  lemma AgreeAppend(m1: seq<bool>, m2: seq<bool>, s1: Text, s2: Text, t1: Text, t2: Text)
    requires |m1| == |s1| == |t1| && |m2| == |s2| == |t2|
    ensures AgreeWhere(m1 + m2, s1 + s2, t1 + t2) <==> AgreeWhere(m1, s1, t1) && AgreeWhere(m2, s2, t2)
  {
    var m, s, t := m1 + m2, s1 + s2, t1 + t2;
    if AgreeWhere(m, s, t) {
      forall i | 0 <= i < |m1| && m1[i]
        ensures s1[i] == t1[i]
      {
        assert m[i] && s[i] == s1[i] && t[i] == t1[i];
      }
      forall i | 0 <= i < |m2| && m2[i]
        ensures s2[i] == t2[i]
      {
        assert m[|m1| + i] && s[|m1| + i] == s2[i] && t[|m1| + i] == t2[i];
      }
    }
  }

  /** Alike tokens have equal numbers exactly when the texts agree inside the number tokens. */
  lemma {:induction false} NumbersAgree(a: seq<Token>, b: seq<Token>)
    requires AllAlike(a, b)
    ensures |InNumber(a)| == |Concat(a)| == |Concat(b)|
    ensures Numbers(a) == Numbers(b) <==> AgreeWhere(InNumber(a), Concat(a), Concat(b))
    ensures |Numbers(a)| == |Numbers(b)|
  {
    InNumberLength(a);
    AlikeTemplates(a, b);
    if a != [] {
      assert Alike(a[0], b[0]);
      InNumberLength(a[1..]);
      AlikeTemplates(a[1..], b[1..]);
      NumbersAgree(a[1..], b[1..]);
      var mask := seq(|a[0].text|, k => a[0].Number?);
      AgreeAppend(mask, InNumber(a[1..]), a[0].text, Concat(a[1..]), b[0].text, Concat(b[1..]));
      HeadAgrees(a[0], b[0], mask);
      SplitNumbers(a, b);
    }
  }

  lemma HeadAgrees(x: Token, y: Token, mask: seq<bool>)
    requires Alike(x, y) && mask == seq(|x.text|, k => x.Number?)
    ensures AgreeWhere(mask, x.text, y.text) <==> NumberIn(x) == NumberIn(y)
  {
    if x.Number? && AgreeWhere(mask, x.text, y.text) {
      forall i | 0 <= i < |x.text|
        ensures x.text[i] == y.text[i]
      {
        assert mask[i];
      }
      assert x.text == y.text;
    }
  }

  lemma SplitNumbers(a: seq<Token>, b: seq<Token>)
    requires a != [] && b != [] && Alike(a[0], b[0])
    ensures Numbers(a) == Numbers(b) <==> NumberIn(a[0]) == NumberIn(b[0]) && Numbers(a[1..]) == Numbers(b[1..])
  {
    var x, y := NumberIn(a[0]), NumberIn(b[0]);
    assert |x| == |y|;
    assert Numbers(a)[..|x|] == x && Numbers(b)[..|y|] == y;
    assert Numbers(a)[|x|..] == Numbers(a[1..]) && Numbers(b)[|y|..] == Numbers(b[1..]);
  }

  /**
   Digit-shape invariance. Texts of one shape have the same template, and the same numbers
   exactly when no digit inside a number token differs.
   */
  lemma DigitShapeInvariance(alnum: char -> bool, s: Text, t: Text)
    requires SameShape(s, t) && AlnumOk(alnum)
    ensures AllAlike(Scan(alnum, s, 0), Scan(alnum, t, 0))
    ensures Template(Scan(alnum, s, 0)) == Template(Scan(alnum, t, 0))
    ensures |InNumber(Scan(alnum, s, 0))| == |s|
    ensures Numbers(Scan(alnum, s, 0)) == Numbers(Scan(alnum, t, 0)) <==>
            AgreeWhere(InNumber(Scan(alnum, s, 0)), s, t)
  {
    ScanShape(alnum, s, t, 0);
    AlikeTemplates(Scan(alnum, s, 0), Scan(alnum, t, 0));
    NumbersAgree(Scan(alnum, s, 0), Scan(alnum, t, 0));
    ScanLossless(alnum, s, 0);
    ScanLossless(alnum, t, 0);
    assert s[0..] == s && t[0..] == t;
  }
}
