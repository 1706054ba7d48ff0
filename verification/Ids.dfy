/**
 Identifier validation and the canonical form of wing names.

 `space` stands for the Unicode white-space test that trimming uses; it must not hold of
 the characters an identifier may have.
 */
module Ids {
  import opened Options

  datatype IdError = Empty | InvalidCharacter(ch: char)

  predicate LowerOrDigit(c: char) {
    'a' <= c <= 'z' || '0' <= c <= '9'
  }

  predicate Punctuation(c: char) {
    c == '_' || c == '-' || c == '/' || c == '.'
  }

  predicate CanonicalChar(c: char) {
    LowerOrDigit(c) || Punctuation(c)
  }

  predicate IdChar(c: char) {
    CanonicalChar(c) || 'A' <= c <= 'Z'
  }

  ghost predicate SpaceOk(space: char -> bool) {
    forall c :: IdChar(c) ==> !space(c)
  }

  predicate ValidId(value: string) {
    value != [] && forall i :: 0 <= i < |value| ==> IdChar(value[i])
  }

  /** `validate_id`: no error exactly for a valid id, and otherwise the first reason against it. */
  method ValidateId(value: string) returns (error: Option<IdError>)
    ensures error.None? <==> ValidId(value)
    ensures error == Some(Empty) <==> value == []
    ensures error.Some? && error.value.InvalidCharacter? ==>
              exists i :: 0 <= i < |value| && value[i] == error.value.ch && !IdChar(value[i])
                          && forall j :: 0 <= j < i ==> IdChar(value[j])
  {
    if value == [] {
      return Some(Empty);
    }
    for i := 0 to |value|
      invariant forall j :: 0 <= j < i ==> IdChar(value[j])
    {
      if !IdChar(value[i]) {
        return Some(InvalidCharacter(value[i]));
      }
    }
    return None;
  }

  // ----- canonical wing names -----

  const WING_PREFIX := "wing_"

  function TrimStart(space: char -> bool, s: string): (r: string)
    ensures |r| <= |s| && r == s[|s| - |r|..]
    ensures r == [] <==> forall i :: 0 <= i < |s| ==> space(s[i])
    ensures r != [] ==> !space(r[0])
  {
    if s == [] || !space(s[0]) then s
    else
      var r := TrimStart(space, s[1..]);
      assert (forall i :: 0 <= i < |s[1..]| ==> space(s[1..][i])) ==> forall i :: 1 <= i < |s| ==> space(s[i]) by {
        assert forall i :: 1 <= i < |s| ==> s[i] == s[1..][i - 1];
      }
      r
  }

  function TrimEnd(space: char -> bool, s: string): (r: string)
    ensures |r| <= |s| && r == s[..|r|]
    ensures r == [] <==> forall i :: 0 <= i < |s| ==> space(s[i])
    ensures r != [] ==> !space(r[|r| - 1])
  {
    if s == [] || !space(s[|s| - 1]) then s else TrimEnd(space, s[..|s| - 1])
  }

  function Trim(space: char -> bool, s: string): string {
    TrimEnd(space, TrimStart(space, s))
  }

  ghost predicate Blank(space: char -> bool, s: string) {
    forall i :: 0 <= i < |s| ==> space(s[i])
  }

  function AsciiLower(c: char): char {
    if 'A' <= c <= 'Z' then c - 'A' + 'a' else c
  }

  function CanonicalOf(c: char): (r: char)
    ensures CanonicalChar(r)
    ensures CanonicalChar(c) ==> r == c
  {
    if CanonicalChar(AsciiLower(c)) then AsciiLower(c) else '_'
  }

  function MapCanonical(s: string): (r: string)
    ensures |r| == |s| && forall i :: 0 <= i < |s| ==> r[i] == CanonicalOf(s[i])
  {
    seq(|s|, i requires 0 <= i < |s| => CanonicalOf(s[i]))
  }

  /** `WingId::normalized`: `None` stands for the empty-id error. */
  function Normalized(space: char -> bool, value: string): Option<string> {
    var canonical := MapCanonical(Trim(space, value));
    if canonical == [] then None
    else Some(Prefixed(canonical))
  }

  function Prefixed(s: string): string {
    if WING_PREFIX <= s then s else WING_PREFIX + s
  }

  /** The names that normalisation leaves alone. */
  predicate Canonical(s: string) {
    WING_PREFIX <= s && forall i :: 0 <= i < |s| ==> CanonicalChar(s[i])
  }

  /** A trimmed text is what is between its first and last visible characters. */
  lemma TrimMiddle(space: char -> bool, front: string, middle: string, back: string)
    requires Blank(space, front) && Blank(space, back)
    requires middle != [] && !space(middle[0]) && !space(middle[|middle| - 1])
    ensures Trim(space, front + middle + back) == middle
  {
    hide TrimStart, TrimEnd, Blank;
    TrimStartMiddle(space, front, middle + back);
    assert front + middle + back == front + (middle + back);
    TrimEndMiddle(space, middle, back);
  }

  lemma {:induction false} TrimStartMiddle(space: char -> bool, front: string, rest: string)
    requires Blank(space, front) && rest != [] && !space(rest[0])
    ensures TrimStart(space, front + rest) == rest
  {
    if front == [] {
      assert front + rest == rest;
    } else {
      assert (front + rest)[1..] == front[1..] + rest;
      TrimStartMiddle(space, front[1..], rest);
    }
  }

  lemma {:induction false} TrimEndMiddle(space: char -> bool, rest: string, back: string)
    requires Blank(space, back) && rest != [] && !space(rest[|rest| - 1])
    ensures TrimEnd(space, rest + back) == rest
    decreases |back|
  {
    if back == [] {
      assert rest + back == rest;
    } else {
      assert (rest + back)[..|rest + back| - 1] == rest + back[..|back| - 1];
      TrimEndMiddle(space, rest, back[..|back| - 1]);
    }
  }

  lemma TrimBlank(space: char -> bool, s: string)
    ensures Trim(space, s) == [] <==> Blank(space, s)
  {
    var t := TrimStart(space, s);
    if t != [] {
      assert !space(t[0]);
      assert t[0] == s[|s| - |t|];
    }
  }

  lemma PrefixedIsCanonical(s: string)
    requires forall i :: 0 <= i < |s| ==> CanonicalChar(s[i])
    ensures Canonical(Prefixed(s)) && ValidId(Prefixed(s))
  {
    var p := Prefixed(s);
    forall i | 0 <= i < |p|
      ensures CanonicalChar(p[i])
    {
      if p != s {
        assert p[i] == if i < 5 then WING_PREFIX[i] else s[i - 5];
      }
    }
  }

  /** Normalisation fails exactly on blank input, and its results are valid ids in canonical form. */
  lemma NormalizedResult(space: char -> bool, value: string)
    ensures Normalized(space, value).None? <==> Blank(space, value)
    ensures Normalized(space, value).Some? ==>
              Canonical(Normalized(space, value).value) && ValidId(Normalized(space, value).value)
  {
    hide TrimStart, TrimEnd;
    TrimBlank(space, value);
    PrefixedIsCanonical(MapCanonical(Trim(space, value)));
  }

  /** The canonical names are exactly the fixed points of normalisation. */
  lemma CanonicalIsFixed(space: char -> bool, s: string)
    requires SpaceOk(space)
    ensures Normalized(space, s) == Some(s) <==> Canonical(s)
  {
    if Canonical(s) {
      assert s[0] == WING_PREFIX[0];
      assert !space(s[0]) && !space(s[|s| - 1]);
      assert Trim(space, s) == s;
      assert MapCanonical(s) == s;
    } else {
      NormalizedResult(space, s);
    }
  }

  lemma NormalizedIsIdempotent(space: char -> bool, value: string)
    requires SpaceOk(space) && Normalized(space, value).Some?
    ensures Normalized(space, Normalized(space, value).value) == Normalized(space, value)
  {
    NormalizedResult(space, value);
    CanonicalIsFixed(space, Normalized(space, value).value);
  }

  /** What becomes of each character: a capital is lower-cased, what may stand is kept, the rest is an underscore. */
  lemma CanonicalCharacter(c: char)
    ensures CanonicalOf(c) ==
            if 'A' <= c <= 'Z' then c - 'A' + 'a'
            else if 'a' <= c <= 'z' || '0' <= c <= '9' || c == '_' || c == '-' || c == '/' || c == '.' then c
            else '_'
  {
  }

  /** The canonical form: what is trimmed, character by character, behind the prefix unless it is there. */
  lemma NormalizedMeans(space: char -> bool, front: string, middle: string, back: string)
    requires Blank(space, front) && Blank(space, back)
    requires middle != [] && !space(middle[0]) && !space(middle[|middle| - 1])
    ensures var body := seq(|middle|, i requires 0 <= i < |middle| => CanonicalOf(middle[i]));
            Normalized(space, front + middle + back) == Some(if "wing_" <= body then body else "wing_" + body)
  {
    TrimMiddle(space, front, middle, back);
    hide Trim, Blank, CanonicalOf;
    assert MapCanonical(middle) == seq(|middle|, i requires 0 <= i < |middle| => CanonicalOf(middle[i]));
  }
}
