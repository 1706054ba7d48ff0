/**
 The template-masking scanner: it replaces timestamps by `<t>` and other numbers by `<n>`,
 so that two runs of one recurring report compare equal.

 `alnum` stands for the Unicode test `is_alphanumeric`, and `Tables` for the Unicode
 tables that text normalisation uses; the theorems hold for every choice of them that
 meets the few facts named in `Sane`.
 */
module TemplateMasking {
  import opened Options

  type Text = seq<char>

  // ----- characters -----

  predicate IsDigit(c: char) {
    '0' <= c <= '9'
  }

  predicate DigitAt(s: Text, i: nat) {
    i < |s| && IsDigit(s[i])
  }

  predicate CharAt(s: Text, i: nat, c: char) {
    i < |s| && s[i] == c
  }

  /** What the theorems need to know about `is_alphanumeric`. */
  ghost predicate AlnumOk(alnum: char -> bool) {
    && (forall c :: IsDigit(c) ==> alnum(c))
    && alnum('t') && alnum('z')
    && !alnum(' ')
  }

  // ----- matchers; each gives the end of its match -----

  function DigitsEnd(s: Text, start: nat): (end: nat)
    ensures start <= end && (start <= |s| ==> end <= |s|)
    ensures forall k :: start <= k < end ==> DigitAt(s, k)
    ensures !DigitAt(s, end)
    decreases |s| - start
  {
    if DigitAt(s, start) then DigitsEnd(s, start + 1) else start
  }

  /** Exactly `count` digits. */
  function FixedDigits(s: Text, start: nat, count: nat): Option<nat> {
    if start + count <= |s| && forall k :: start <= k < start + count ==> IsDigit(s[k])
    then Some(start + count) else None
  }

  function MatchDate(s: Text, start: nat): Option<nat> {
    var year := FixedDigits(s, start, 4);
    if year.None? || !CharAt(s, year.value, '-') then None
    else
      var month := FixedDigits(s, year.value + 1, 2);
      if month.None? || !CharAt(s, month.value, '-') then None
      else
        var day := FixedDigits(s, month.value + 1, 2);
        if day.None? || DigitAt(s, day.value) then None else day
  }

  function MatchOffset(alnum: char -> bool, s: Text, start: nat): Option<nat> {
    if CharAt(s, start, 'z') then
      if start + 1 < |s| && alnum(s[start + 1]) then None else Some(start + 1)
    else if CharAt(s, start, '+') || CharAt(s, start, '-') then
      var hours := FixedDigits(s, start + 1, 2);
      if hours.None? || !CharAt(s, hours.value, ':') then None
      else
        var minutes := FixedDigits(s, hours.value + 1, 2);
        if minutes.None? || DigitAt(s, minutes.value) then None else minutes
    else None
  }

  /** The end of the seconds and their fraction, or `start` itself when there are none. */
  function SecondsEnd(s: Text, start: nat): nat {
    var seconds := if CharAt(s, start, ':') then FixedDigits(s, start + 1, 2) else None;
    if seconds.None? then start
    else if CharAt(s, seconds.value, '.') && DigitAt(s, seconds.value + 1) then
      DigitsEnd(s, seconds.value + 1)
    else seconds.value
  }

  function MatchTime(alnum: char -> bool, s: Text, start: nat): Option<nat> {
    var hourEnd := DigitsEnd(s, start);
    if hourEnd == start || hourEnd - start > 2 || !CharAt(s, hourEnd, ':') then None
    else
      var minutes := FixedDigits(s, hourEnd + 1, 2);
      if minutes.None? then None
      else
        var index := SecondsEnd(s, minutes.value);
        if DigitAt(s, index) then None
        else
          var offset := MatchOffset(alnum, s, index);
          if offset.Some? then offset else Some(index)
  }

  function MatchTimestamp(alnum: char -> bool, s: Text, start: nat): Option<nat> {
    var date := MatchDate(s, start);
    if date.Some? then
      var time := if CharAt(s, date.value, 't') || CharAt(s, date.value, ' ')
                  then MatchTime(alnum, s, date.value + 1) else None;
      if time.Some? then time else date
    else MatchTime(alnum, s, start)
  }

  // ----- tokens -----

  datatype Token =
    | Plain(text: Text)     // one character, kept
    | Stamp(text: Text)     // a timestamp, shown as `<t>`
    | Number(text: Text)    // any other number, shown as `<n>`

  /** A `-` that is the sign of the number after it. */
  predicate Signed(alnum: char -> bool, s: Text, i: nat) {
    SignBefore(alnum, s, i, MatchTimestamp(alnum, s, i + 1))
  }

  predicate SignBefore(alnum: char -> bool, s: Text, i: nat, stamp: Option<nat>) {
    && CharAt(s, i, '-')
    && DigitAt(s, i + 1)
    && (i == 0 || !alnum(s[i - 1]))
    && stamp.None?
  }

  /** The end of the number that starts at `i`, its sign and fraction included. */
  function NumberEnd(s: Text, i: nat, signed: bool): (end: nat)
    requires DigitAt(s, if signed then i + 1 else i)
    ensures i < end <= |s|
  {
    var whole := DigitsEnd(s, if signed then i + 1 else i);
    if CharAt(s, whole, '.') && DigitAt(s, whole + 1) then DigitsEnd(s, whole + 1) else whole
  }

  function NextToken(alnum: char -> bool, s: Text, i: nat): (t: Token)
    requires i < |s|
    ensures 0 < |t.text| <= |s| - i && t.text == s[i..i + |t.text|]
    ensures t.Plain? ==> |t.text| == 1 && !IsDigit(t.text[0])
  {
    MatchTimestampBounds(alnum, s, i);
    TokenAt(s, i, Signed(alnum, s, i), MatchTimestamp(alnum, s, i))
  }

  /** The token at `i`, given whether a sign starts there and the timestamp found there, if any. */
  function TokenAt(s: Text, i: nat, signed: bool, stamp: Option<nat>): (t: Token)
    requires i < |s| && (signed ==> DigitAt(s, i + 1)) && (stamp.Some? ==> i < stamp.value <= |s|)
    ensures 0 < |t.text| <= |s| - i && t.text == s[i..i + |t.text|]
    ensures t.Plain? ==> |t.text| == 1 && !IsDigit(t.text[0])
  {
    if !signed && !IsDigit(s[i]) then Plain([s[i]])
    else if stamp.Some? then Stamp(s[i..stamp.value])
    else Number(s[i..NumberEnd(s, i, signed)])
  }

  function Scan(alnum: char -> bool, s: Text, i: nat): (tokens: seq<Token>)
    requires i <= |s|
    decreases |s| - i
  {
    if i == |s| then []
    else
      var t := NextToken(alnum, s, i);
      [t] + Scan(alnum, s, i + |t.text|)
  }

  function Concat(tokens: seq<Token>): Text {
    if tokens == [] then [] else tokens[0].text + Concat(tokens[1..])
  }

  function Shown(t: Token): Text {
    match t
    case Plain(x) => x
    case Stamp(_) => "<t>"
    case Number(_) => "<n>"
  }

  function Template(tokens: seq<Token>): Text {
    if tokens == [] then [] else Shown(tokens[0]) + Template(tokens[1..])
  }

  function NumberIn(t: Token): seq<Text> {
    if t.Number? then [t.text] else []
  }

  function Numbers(tokens: seq<Token>): seq<Text> {
    if tokens == [] then [] else NumberIn(tokens[0]) + Numbers(tokens[1..])
  }

  // ----- how far matches reach -----

  lemma MatchOffsetBounds(alnum: char -> bool, s: Text, start: nat)
    ensures MatchOffset(alnum, s, start).Some? ==> start < MatchOffset(alnum, s, start).value <= |s|
  {
  }

  lemma MatchTimeBounds(alnum: char -> bool, s: Text, start: nat)
    ensures MatchTime(alnum, s, start).Some? ==> start < MatchTime(alnum, s, start).value <= |s|
    ensures MatchTime(alnum, s, start).Some? ==> DigitAt(s, start)
  {
    hide MatchOffset;
    MatchOffsetBounds(alnum, s, SecondsEnd(s, DigitsEnd(s, start) + 3));
  }

  lemma MatchDateBounds(s: Text, start: nat)
    ensures MatchDate(s, start).Some? ==> MatchDate(s, start).value == start + 10 <= |s| && DigitAt(s, start)
  {
  }

  lemma MatchTimestampBounds(alnum: char -> bool, s: Text, start: nat)
    ensures MatchTimestamp(alnum, s, start).Some? ==> start < MatchTimestamp(alnum, s, start).value <= |s|
    ensures MatchTimestamp(alnum, s, start).Some? ==> DigitAt(s, start)
  {
    hide MatchDate, MatchTime;
    MatchDateBounds(s, start);
    MatchTimeBounds(alnum, s, start);
    var date := MatchDate(s, start);
    if date.Some? {
      MatchTimeBounds(alnum, s, date.value + 1);
    }
  }

  // ----- the loops of the source -----

  method DigitsEndLoop(s: Text, start: nat) returns (index: nat)
    ensures index == DigitsEnd(s, start)
  {
    index := start;
    while index < |s| && IsDigit(s[index])
      invariant DigitsEnd(s, start) == DigitsEnd(s, index)
      decreases |s| - index
    {
      index := index + 1;
    }
  }

  lemma {:induction false} TemplateAppend(a: seq<Token>, b: seq<Token>)
    ensures Template(a + b) == Template(a) + Template(b)
  {
    if a == [] {
      assert a + b == b;
    } else {
      assert (a + b)[0] == a[0] && (a + b)[1..] == a[1..] + b;
      TemplateAppend(a[1..], b);
    }
  }

  lemma {:induction false} NumbersAppend(a: seq<Token>, b: seq<Token>)
    ensures Numbers(a + b) == Numbers(a) + Numbers(b)
  {
    if a == [] {
      assert a + b == b;
    } else {
      assert (a + b)[0] == a[0] && (a + b)[1..] == a[1..] + b;
      NumbersAppend(a[1..], b);
    }
  }

  lemma {:induction false} ScanStep(alnum: char -> bool, s: Text, i: nat)
    requires i < |s|
    ensures var t := NextToken(alnum, s, i);
            var rest := Scan(alnum, s, i + |t.text|);
            && Scan(alnum, s, i) == [t] + rest
            && Concat(Scan(alnum, s, i)) == t.text + Concat(rest)
            && Template(Scan(alnum, s, i)) == Shown(t) + Template(rest)
            && Numbers(Scan(alnum, s, i)) == NumberIn(t) + Numbers(rest)
  {
    hide NextToken;
    var t := NextToken(alnum, s, i);
    var rest := Scan(alnum, s, i + |t.text|);
    assert ([t] + rest)[1..] == rest;
  }

  lemma {:induction false} ScanCons(alnum: char -> bool, s: Text, i: nat, t: Token)
    requires i < |s| && NextToken(alnum, s, i) == t
    ensures Scan(alnum, s, i) == [t] + Scan(alnum, s, i + |t.text|)
  {
    hide NextToken;
  }

  /** Moving a piece from the front of what is left to the end of what is done. */
  lemma Advance<T>(done: seq<T>, piece: seq<T>, rest: seq<T>)
    ensures done + (piece + rest) == (done + piece) + rest
  {
  }

  /** The body of the scanning loop: read one token at `index`. */
  method ReadToken(alnum: char -> bool, chars: Text, index: nat) returns (token: Token)
    requires index < |chars|
    ensures token == NextToken(alnum, chars, index)
  {
    hide MatchTimestamp;
    var signed := Signed(alnum, chars, index);
    if !signed && !IsDigit(chars[index]) {
      return Plain([chars[index]]);
    }
    var stamp := MatchTimestamp(alnum, chars, index);
    if stamp.Some? {
      MatchTimestampBounds(alnum, chars, index);
      return Stamp(chars[index..stamp.value]);
    }
    var end := DigitsEndLoop(chars, if signed then index + 1 else index);
    if CharAt(chars, end, '.') && DigitAt(chars, end + 1) {
      end := DigitsEndLoop(chars, end + 1);
    }
    return Number(chars[index..end]);
  }

  lemma {:induction false} Extend(done: seq<Token>, t: Token)
    ensures Template(done + [t]) == Template(done) + Shown(t)
    ensures Numbers(done + [t]) == Numbers(done) + NumberIn(t)
  {
    assert [t][1..] == [];
    assert Template([t]) == Shown(t) + [] == Shown(t);
    assert Numbers([t]) == NumberIn(t) + [] == NumberIn(t);
    TemplateAppend(done, [t]);
    NumbersAppend(done, [t]);
  }

  lemma NothingRead(alnum: char -> bool, s: Text)
    ensures Template([]) == [] && Numbers([]) == [] && Scan(alnum, s, |s|) == []
  {
  }

  /** The scanning loop of `mask_template`, on text that is already normalised. */
  method MaskLoop(alnum: char -> bool, chars: Text) returns (template: Text, numbers: seq<Text>)
    ensures template == Template(Scan(alnum, chars, 0))
    ensures numbers == Numbers(Scan(alnum, chars, 0))
  {
    hide NextToken, Scan, Template, Numbers;
    NothingRead(alnum, chars);
    template := [];
    numbers := [];
    var index := 0;
    ghost var done: seq<Token> := [];
    while index < |chars|
      invariant index <= |chars|
      invariant Scan(alnum, chars, 0) == done + Scan(alnum, chars, index)
      invariant template == Template(done) && numbers == Numbers(done)
      decreases |chars| - index
    {
      var token := ReadToken(alnum, chars, index);
      ScanCons(alnum, chars, index, token);
      Advance(done, [token], Scan(alnum, chars, index + |token.text|));
      Extend(done, token);
      done := done + [token];
      template := template + Shown(token);
      numbers := numbers + NumberIn(token);
      index := index + |token.text|;
    }
    assert done + [] == done;
  }
}
