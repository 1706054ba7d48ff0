/**
 The scanner is local: a piece of text that ends at a break, a character that no token
 goes on with, is read in place exactly as it is read alone. The one exception is a date
 before a space, which takes in a clock time after the space.
 */
module ScanLocality {
  import opened Options
  import opened TemplateMasking

  /** No token goes on with this character, unless it is the space between a date and a clock time. */
  predicate Ends(c: char) {
    !IsDigit(c) && c !in "-.:+tz"
  }

  /** A break of the text: neither a letter or digit nor one of the signs that tokens are built with. */
  predicate Break(alnum: char -> bool, c: char) {
    !alnum(c) && c !in "-.:+"
  }

  /** `u` stands in `v` at offset `d` and is followed there by nothing, or by a character that ends it. */
  ghost predicate Embeds(u: Text, v: Text, d: nat) {
    && d + |u| <= |v|
    && (forall k :: 0 <= k < |u| ==> u[k] == v[d + k])
    && (d + |u| == |v| || Ends(v[d + |u|]))
  }

  function Shift(r: Option<nat>, d: nat): Option<nat> {
    if r.None? then None else Some(d + r.value)
  }

  lemma AtEmbed(u: Text, v: Text, d: nat, i: nat)
    requires Embeds(u, v, d) && i <= |u|
    ensures DigitAt(v, d + i) == DigitAt(u, i)
    ensures forall c :: c in "-.:+tz" ==> CharAt(v, d + i, c) == CharAt(u, i, c)
  {
  }

  lemma {:induction false} DigitsEndEmbed(u: Text, v: Text, d: nat, i: nat)
    requires Embeds(u, v, d) && i <= |u|
    ensures DigitsEnd(v, d + i) == d + DigitsEnd(u, i)
    decreases |u| - i
  {
    AtEmbed(u, v, d, i);
    if DigitAt(u, i) {
      DigitsEndEmbed(u, v, d, i + 1);
    }
  }

  lemma FixedEmbed(u: Text, v: Text, d: nat, i: nat, count: nat)
    requires Embeds(u, v, d) && i <= |u| && count > 0
    ensures FixedDigits(v, d + i, count) == Shift(FixedDigits(u, i, count), d)
  {
    if i + count <= |u| {
      if FixedDigits(v, d + i, count).Some? {
        forall k | i <= k < i + count
          ensures IsDigit(u[k])
        {
          assert IsDigit(v[d + k]);
        }
      }
      if FixedDigits(u, i, count).Some? {
        forall k | d + i <= k < d + i + count
          ensures IsDigit(v[k])
        {
          assert u[k - d] == v[k];
        }
      }
    } else if d + |u| < |v| {
      assert !IsDigit(v[d + |u|]);
    }
  }

  lemma DateEmbed(u: Text, v: Text, d: nat, i: nat)
    requires Embeds(u, v, d) && i <= |u|
    ensures MatchDate(v, d + i) == Shift(MatchDate(u, i), d)
  {
    FixedEmbed(u, v, d, i, 4);
    if FixedDigits(u, i, 4).Some? {
      AtEmbed(u, v, d, i + 4);
      if CharAt(u, i + 4, '-') {
        FixedEmbed(u, v, d, i + 5, 2);
        if FixedDigits(u, i + 5, 2).Some? {
          AtEmbed(u, v, d, i + 7);
          if CharAt(u, i + 7, '-') {
            FixedEmbed(u, v, d, i + 8, 2);
            if FixedDigits(u, i + 8, 2).Some? {
              AtEmbed(u, v, d, i + 10);
            }
          }
        }
      }
    }
  }

  /** The piece is not followed by a letter or digit. */
  ghost predicate NoWordAfter(alnum: char -> bool, u: Text, v: Text, d: nat) {
    d + |u| < |v| ==> !alnum(v[d + |u|])
  }

  lemma OffsetEmbed(alnum: char -> bool, u: Text, v: Text, d: nat, i: nat)
    requires Embeds(u, v, d) && i <= |u| && NoWordAfter(alnum, u, v, d)
    ensures MatchOffset(alnum, v, d + i) == Shift(MatchOffset(alnum, u, i), d)
  {
    AtEmbed(u, v, d, i);
    if i < |u| {
      if u[i] == 'z' {
        assert i + 1 < |u| ==> u[i + 1] == v[d + (i + 1)];
      } else if u[i] == '+' || u[i] == '-' {
        FixedEmbed(u, v, d, i + 1, 2);
        if FixedDigits(u, i + 1, 2).Some? {
          AtEmbed(u, v, d, i + 3);
          if CharAt(u, i + 3, ':') {
            FixedEmbed(u, v, d, i + 4, 2);
            if FixedDigits(u, i + 4, 2).Some? {
              AtEmbed(u, v, d, i + 6);
            }
          }
        }
      }
    }
  }

  lemma SecondsEmbed(u: Text, v: Text, d: nat, i: nat)
    requires Embeds(u, v, d) && i <= |u|
    ensures SecondsEnd(v, d + i) == d + SecondsEnd(u, i)
    ensures SecondsEnd(u, i) <= |u|
  {
    AtEmbed(u, v, d, i);
    if CharAt(u, i, ':') {
      FixedEmbed(u, v, d, i + 1, 2);
      if FixedDigits(u, i + 1, 2).Some? {
        AtEmbed(u, v, d, i + 3);
        if CharAt(u, i + 3, '.') {
          AtEmbed(u, v, d, i + 4);
          DigitsEndEmbed(u, v, d, i + 4);
        }
      }
    }
  }

  lemma TimeEmbed(alnum: char -> bool, u: Text, v: Text, d: nat, i: nat)
    requires Embeds(u, v, d) && i <= |u| && NoWordAfter(alnum, u, v, d)
    ensures MatchTime(alnum, v, d + i) == Shift(MatchTime(alnum, u, i), d)
  {
    hide SecondsEnd, MatchOffset;
    DigitsEndEmbed(u, v, d, i);
    var hourEnd := DigitsEnd(u, i);
    AtEmbed(u, v, d, hourEnd);
    if CharAt(u, hourEnd, ':') {
      FixedEmbed(u, v, d, hourEnd + 1, 2);
      if FixedDigits(u, hourEnd + 1, 2).Some? {
        SecondsEmbed(u, v, d, hourEnd + 3);
        var index := SecondsEnd(u, hourEnd + 3);
        AtEmbed(u, v, d, index);
        OffsetEmbed(alnum, u, v, d, index);
      }
    }
  }

  predicate EndsInDigit(u: Text) {
    u != [] && IsDigit(u[|u| - 1])
  }

  /** Neither a word nor, after a digit and a space, a clock time follows the piece, so a date at its end stands alone. */
  ghost predicate NothingAfter(alnum: char -> bool, u: Text, v: Text, d: nat) {
    && NoWordAfter(alnum, u, v, d)
    && (d + |u| < |v| && v[d + |u|] == ' ' && EndsInDigit(u) ==> MatchTime(alnum, v, d + |u| + 1).None?)
  }

  lemma TimestampEmbed(alnum: char -> bool, u: Text, v: Text, d: nat, i: nat)
    requires Embeds(u, v, d) && i <= |u| && NothingAfter(alnum, u, v, d)
    ensures MatchTimestamp(alnum, v, d + i) == Shift(MatchTimestamp(alnum, u, i), d)
  {
    hide MatchDate, MatchTime;
    DateEmbed(u, v, d, i);
    MatchDateBounds(u, i);
    TimeEmbed(alnum, u, v, d, i);
    var date := MatchDate(u, i);
    if date.Some? {
      var end := date.value;
      assert end <= |u|;
      DateEndsInDigit(u, i);
      AtEmbed(u, v, d, end);
      if end < |u| {
        assert u[end] == v[d + end];
        TimeEmbed(alnum, u, v, d, end + 1);
      }
    }
  }

  lemma DateEndsInDigit(u: Text, i: nat)
    requires MatchDate(u, i).Some?
    ensures IsDigit(u[MatchDate(u, i).value - 1])
  {
  }

  lemma NumberEndEmbed(u: Text, v: Text, d: nat, i: nat, signed: bool)
    requires Embeds(u, v, d) && i < |u|
    requires DigitAt(u, if signed then i + 1 else i) && DigitAt(v, d + if signed then i + 1 else i)
    ensures NumberEnd(v, d + i, signed) == d + NumberEnd(u, i, signed)
  {
    var start := if signed then i + 1 else i;
    DigitsEndEmbed(u, v, d, start);
    var whole := DigitsEnd(u, start);
    AtEmbed(u, v, d, whole);
    if CharAt(u, whole, '.') {
      AtEmbed(u, v, d, whole + 1);
      DigitsEndEmbed(u, v, d, whole + 1);
    }
  }

  /** The character before the piece does not matter to what is read at `i`. */
  ghost predicate Detached(alnum: char -> bool, u: Text, v: Text, d: nat, i: nat)
    requires d <= |v|
  {
    i > 0 || d == 0 || u == [] || u[0] != '-' || !alnum(v[d - 1])
  }

  lemma SignBeforeEmbed(alnum: char -> bool, u: Text, v: Text, d: nat, i: nat, stamp: Option<nat>)
    requires Embeds(u, v, d) && i < |u| && Detached(alnum, u, v, d, i)
    ensures SignBefore(alnum, v, d + i, Shift(stamp, d)) == SignBefore(alnum, u, i, stamp)
  {
    AtEmbed(u, v, d, i);
    AtEmbed(u, v, d, i + 1);
    assert i > 0 ==> u[i - 1] == v[d + (i - 1)];
  }

  lemma SignedEmbed(alnum: char -> bool, u: Text, v: Text, d: nat, i: nat)
    requires Embeds(u, v, d) && i < |u| && NothingAfter(alnum, u, v, d) && Detached(alnum, u, v, d, i)
    ensures Signed(alnum, v, d + i) == Signed(alnum, u, i)
  {
    hide MatchTimestamp, SignBefore;
    TimestampEmbed(alnum, u, v, d, i + 1);
    SignBeforeEmbed(alnum, u, v, d, i, MatchTimestamp(alnum, u, i + 1));
  }

  lemma SameSlice(u: Text, v: Text, d: nat, i: nat, j: nat)
    requires Embeds(u, v, d) && i <= j <= |u|
    ensures v[d + i..d + j] == u[i..j]
  {
    forall k | 0 <= k < j - i
      ensures v[d + i..d + j][k] == u[i..j][k]
    {
      assert u[i + k] == v[d + (i + k)];
    }
  }

  lemma TokenAtEmbed(u: Text, v: Text, d: nat, i: nat, signed: bool, stamp: Option<nat>)
    requires Embeds(u, v, d) && i < |u|
    requires signed ==> DigitAt(u, i + 1) && DigitAt(v, d + i + 1)
    requires stamp.Some? ==> i < stamp.value <= |u|
    ensures TokenAt(v, d + i, signed, Shift(stamp, d)) == TokenAt(u, i, signed, stamp)
  {
    hide NumberEnd;
    assert u[i] == v[d + i];
    if signed || IsDigit(u[i]) {
      NumberEndEmbed(u, v, d, i, signed);
      SameSlice(u, v, d, i, NumberEnd(u, i, signed));
      if stamp.Some? {
        SameSlice(u, v, d, i, stamp.value);
      }
    }
  }

  lemma NextTokenEmbed(alnum: char -> bool, u: Text, v: Text, d: nat, i: nat)
    requires Embeds(u, v, d) && i < |u| && NothingAfter(alnum, u, v, d) && Detached(alnum, u, v, d, i)
    ensures NextToken(alnum, v, d + i) == NextToken(alnum, u, i)
  {
    SignedEmbed(alnum, u, v, d, i);
    TimestampEmbed(alnum, u, v, d, i);
    MatchTimestampBounds(alnum, u, i);
    TokenAtEmbed(u, v, d, i, Signed(alnum, u, i), MatchTimestamp(alnum, u, i));
  }

  /** The tokens of the piece, then the tokens of what follows it. */
  lemma {:induction false} ScanEmbed(alnum: char -> bool, u: Text, v: Text, d: nat, i: nat)
    requires Embeds(u, v, d) && i <= |u| && NothingAfter(alnum, u, v, d) && Detached(alnum, u, v, d, i)
    ensures Scan(alnum, v, d + i) == Scan(alnum, u, i) + Scan(alnum, v, d + |u|)
    decreases |u| - i
  {
    hide NextToken, Scan, NothingAfter;
    if i == |u| {
      NothingRead(alnum, u);
    } else {
      NextTokenEmbed(alnum, u, v, d, i);
      var t := NextToken(alnum, u, i);
      var j := i + |t.text|;
      ScanEmbed(alnum, u, v, d, j);
      var after := Scan(alnum, v, d + |u|);
      calc {
        Scan(alnum, v, d + i);
        { ScanCons(alnum, v, d + i, t); }
        [t] + Scan(alnum, v, d + j);
        [t] + (Scan(alnum, u, j) + after);
        { Assoc([t], Scan(alnum, u, j), after); }
        [t] + Scan(alnum, u, j) + after;
        { ScanCons(alnum, u, i, t); }
        Scan(alnum, u, i) + after;
      }
    }
  }

  lemma Assoc<T>(a: seq<T>, b: seq<T>, c: seq<T>)
    ensures (a + b) + c == a + (b + c)
  {
  }

  /** Text cut before a break that no clock time follows: each part is read on its own. */
  lemma {:induction false} ScanSplit(alnum: char -> bool, s: Text, rest: Text)
    requires AlnumOk(alnum) && rest != [] && Break(alnum, rest[0])
    requires rest[0] == ' ' && EndsInDigit(s) ==> MatchTime(alnum, rest, 1).None?
    ensures Scan(alnum, s + rest, 0) == Scan(alnum, s, 0) + Scan(alnum, rest, 0)
  {
    hide Scan, NextToken, MatchTime;
    var v := s + rest;
    assert Embeds(rest, v, |s|) && Embeds(s, v, 0);
    TimeEmbed(alnum, rest, v, |s|, 1);
    ScanEmbed(alnum, s, v, 0, 0);
    ScanSuffix(alnum, s, rest);
  }

  /** The text after a cut is read on its own, unless it starts with a sign that follows a word. */
  lemma {:induction false} ScanSuffix(alnum: char -> bool, s: Text, rest: Text)
    requires Detached(alnum, rest, s + rest, |s|, 0)
    ensures Scan(alnum, s + rest, |s|) == Scan(alnum, rest, 0)
  {
    hide Scan, NextToken, MatchTime;
    var v := s + rest;
    assert Embeds(rest, v, |s|);
    ScanEmbed(alnum, rest, v, |s|, 0);
    NothingRead(alnum, v);
    assert Scan(alnum, rest, 0) + [] == Scan(alnum, rest, 0);
  }

  /** A break is a token of its own, and what follows it is read on its own. */
  lemma {:induction false} ScanBreak(alnum: char -> bool, c: char, rest: Text)
    requires AlnumOk(alnum) && Break(alnum, c)
    ensures Scan(alnum, [c] + rest, 0) == [Plain([c])] + Scan(alnum, rest, 0)
  {
    assert NextToken(alnum, [c] + rest, 0) == Plain([c]) by {
      assert !Signed(alnum, [c] + rest, 0);
    }
    hide NextToken;
    ScanCons(alnum, [c] + rest, 0, Plain([c]));
    ScanSuffix(alnum, [c], rest);
  }

  lemma {:induction false} ScanTrailingBreak(alnum: char -> bool, p: Text, c: char)
    requires AlnumOk(alnum) && Break(alnum, c)
    ensures Scan(alnum, p + [c], 0) == Scan(alnum, p, 0) + [Plain([c])]
  {
    assert MatchTime(alnum, [c], 1).None?;
    hide NextToken, Scan, MatchTime;
    ScanSplit(alnum, p, [c]);
    ScanBreak(alnum, c, []);
    assert [c] + [] == [c];
    NothingRead(alnum, []);
  }

  /** Where a text may be cut: at its start, or after a break. */
  predicate Cut(alnum: char -> bool, pre: Text) {
    pre == [] || Break(alnum, pre[|pre| - 1])
  }

  /** After such a cut, what follows is read on its own unless it is a clock time. */
  lemma {:induction false} ScanAfterCut(alnum: char -> bool, pre: Text, rest: Text)
    requires AlnumOk(alnum) && Cut(alnum, pre)
    requires pre != [] && pre[|pre| - 1] == ' ' && EndsInDigit(pre[..|pre| - 1]) ==> MatchTime(alnum, rest, 0).None?
    ensures Scan(alnum, pre + rest, 0) == Scan(alnum, pre, 0) + Scan(alnum, rest, 0)
  {
    hide NextToken, Scan, MatchTime;
    if pre == [] {
      assert pre + rest == rest;
      NothingRead(alnum, pre);
    } else {
      var p, c := pre[..|pre| - 1], pre[|pre| - 1];
      assert pre == p + [c] && pre + rest == p + ([c] + rest);
      assert Embeds(rest, [c] + rest, 1);
      TimeEmbed(alnum, rest, [c] + rest, 1, 0);
      ScanSplit(alnum, p, [c] + rest);
      ScanBreak(alnum, c, rest);
      ScanTrailingBreak(alnum, p, c);
      Assoc(Scan(alnum, p, 0), [Plain([c])], Scan(alnum, rest, 0));
    }
  }
}
