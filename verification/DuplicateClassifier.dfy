/**
 Masking of raw text, and the classification of a near-duplicate drawer.
 */
module DuplicateClassifier {
  import opened Options
  import opened TemplateMasking
  import opened MaskingTheorems
  import opened DigitShape
  import opened ScanLocality
  import opened DateTimes

  /**
   The Unicode tables that normalisation and scanning consult. Lower-casing is taken
   character by character.
   */
  datatype Tables = Tables(space: char -> bool, alnum: char -> bool, lower: char -> char)

  ghost predicate Sane(u: Tables) {
    && AlnumOk(u.alnum)
    && u.space(' ') && u.lower(' ') == ' '
    && (forall c :: IsDigit(c) || c in "<tnz>" ==> !u.space(c))
    && (forall c :: c in "<tn>" ==> u.lower(c) == c)
    && (forall c :: u.lower(u.lower(c)) == u.lower(c))
    && (forall c :: u.space(u.lower(c)) == u.space(c))
  }

  // ----- normalisation -----

  /** The length of the word at the front of the text. */
  function WordEnd(u: Tables, s: Text): (k: nat)
    ensures k <= |s| && (forall i :: 0 <= i < k ==> !u.space(s[i])) && (k < |s| ==> u.space(s[k]))
  {
    if s == [] || u.space(s[0]) then 0 else 1 + WordEnd(u, s[1..])
  }

  /** `split_whitespace`. */
  function Words(u: Tables, s: Text): seq<Text>
    decreases |s|
  {
    if s == [] then []
    else if u.space(s[0]) then Words(u, s[1..])
    else [s[..WordEnd(u, s)]] + Words(u, s[WordEnd(u, s)..])
  }

  /** `join(" ")`. */
  function Join(words: seq<Text>): Text {
    if words == [] then []
    else if |words| == 1 then words[0]
    else words[0] + " " + Join(words[1..])
  }

  function Lower(u: Tables, s: Text): (r: Text)
    ensures |r| == |s| && forall i :: 0 <= i < |s| ==> r[i] == u.lower(s[i])
  {
    seq(|s|, i requires 0 <= i < |s| => u.lower(s[i]))
  }

  function Normalise(u: Tables, s: Text): Text {
    Lower(u, Join(Words(u, s)))
  }

  datatype Masked = Masked(template: Text, numbers: seq<Text>)

  function Mask(u: Tables, s: Text): Masked {
    var tokens := Scan(u.alnum, Normalise(u, s), 0);
    Masked(Template(tokens), Numbers(tokens))
  }

  method MaskTemplate(u: Tables, text: Text) returns (masked: Masked)
    ensures masked == Mask(u, text)
  {
    var template, numbers := MaskLoop(u.alnum, Normalise(u, text));
    return Masked(template, numbers);
  }

  // ----- normalised text -----

  /** Single spaces only, each between two other characters. */
  ghost predicate Tidy(u: Tables, s: Text, afterSpace: bool) {
    if s == [] then !afterSpace
    else if u.space(s[0]) then s[0] == ' ' && !afterSpace && Tidy(u, s[1..], true)
    else Tidy(u, s[1..], false)
  }

  ghost predicate Lowered(u: Tables, s: Text) {
    forall i :: 0 <= i < |s| ==> u.lower(s[i]) == s[i]
  }

  ghost predicate Normal(u: Tables, s: Text) {
    Lowered(u, s) && (s == [] || Tidy(u, s, true))
  }

  ghost predicate IsWord(u: Tables, w: Text) {
    w != [] && forall i :: 0 <= i < |w| ==> !u.space(w[i])
  }

  lemma {:induction false} WordsAreWords(u: Tables, s: Text)
    ensures forall w :: w in Words(u, s) ==> IsWord(u, w)
    decreases |s|
  {
    if s != [] {
      if u.space(s[0]) {
        WordsAreWords(u, s[1..]);
      } else {
        var k := WordEnd(u, s);
        WordsAreWords(u, s[k..]);
        assert IsWord(u, s[..k]);
      }
    }
  }

  lemma {:induction false} TidyWord(u: Tables, w: Text, rest: Text, afterSpace: bool)
    requires IsWord(u, w)
    ensures Tidy(u, w + rest, afterSpace) == Tidy(u, rest, false)
  {
    assert (w + rest)[0] == w[0] && (w + rest)[1..] == w[1..] + rest;
    if |w| == 1 {
      assert w[1..] + rest == rest;
    } else {
      assert IsWord(u, w[1..]) by {
        assert forall i :: 0 <= i < |w[1..]| ==> w[1..][i] == w[i + 1];
      }
      TidyWord(u, w[1..], rest, false);
    }
  }

  lemma {:induction false} JoinIsTidy(u: Tables, words: seq<Text>)
    requires u.space(' ') && words != [] && forall w :: w in words ==> IsWord(u, w)
    ensures Tidy(u, Join(words), true)
  {
    assert words[0] in words;
    if |words| == 1 {
      assert words[0] + [] == words[0];
      TidyWord(u, words[0], [], true);
    } else {
      var rest := Join(words[1..]);
      assert words[0] + " " + rest == words[0] + (" " + rest);
      TidyWord(u, words[0], " " + rest, true);
      JoinIsTidy(u, words[1..]);
      assert (" " + rest)[1..] == rest;
    }
  }

  lemma {:induction false} TidyLower(u: Tables, s: Text, afterSpace: bool)
    requires Sane(u)
    ensures Tidy(u, s, afterSpace) ==> Tidy(u, Lower(u, s), afterSpace)
  {
    if s != [] {
      assert Lower(u, s)[1..] == Lower(u, s[1..]);
      TidyLower(u, s[1..], u.space(s[0]));
    }
  }

  lemma NormaliseIsNormal(u: Tables, s: Text)
    requires Sane(u)
    ensures Normal(u, Normalise(u, s))
  {
    WordsAreWords(u, s);
    if Words(u, s) != [] {
      JoinIsTidy(u, Words(u, s));
      TidyLower(u, Join(Words(u, s)), true);
    }
  }

  /** Text that is already normalised is split and joined back to itself. */
  lemma {:induction false} JoinWords(u: Tables, s: Text)
    requires s != [] && Tidy(u, s, true)
    ensures Words(u, s) != [] && Join(Words(u, s)) == s
    decreases |s|
  {
    assert !u.space(s[0]);
    var k := WordEnd(u, s);
    assert s == s[..k] + s[k..];
    TidyWord(u, s[..k], s[k..], true);
    if k == |s| {
      assert s[..k] == s && s[k..] == [];
      assert Words(u, s) == [s];
    } else {
      var rest := s[k..][1..];
      assert Tidy(u, rest, true);
      JoinWords(u, rest);
      assert Words(u, s[k..]) == Words(u, rest);
      assert Words(u, s)[1..] == Words(u, rest);
      assert s[k..] == " " + rest;
      assert s == s[..k] + " " + rest;
    }
  }

  lemma NormalIsFixed(u: Tables, s: Text)
    requires Normal(u, s)
    ensures Normalise(u, s) == s
  {
    if s != [] {
      JoinWords(u, s);
    }
    assert Lower(u, s) == s;
  }

  // ----- the template of normalised text is normalised -----

  lemma {:induction false} TidySkip(u: Tables, x: Text, rest: Text, afterSpace: bool)
    requires x != [] && !u.space(x[|x| - 1]) && Tidy(u, x + rest, afterSpace)
    ensures Tidy(u, rest, false)
  {
    assert (x + rest)[0] == x[0] && (x + rest)[1..] == x[1..] + rest;
    if |x| == 1 {
      assert x[1..] + rest == rest;
    } else {
      TidySkip(u, x[1..], rest, u.space(x[0]));
    }
  }

  lemma OffsetEndsSolid(u: Tables, x: Text)
    requires Sane(u) && IsOffset(x)
    ensures |x| > 0 && !u.space(x[|x| - 1])
  {
    if x != "z" {
      assert x[5] == x[4..][1];
    }
  }

  lemma SecondsEndSolid(u: Tables, x: Text)
    requires Sane(u) && IsSeconds(x) && x != []
    ensures |x| > 0 && !u.space(x[|x| - 1])
  {
    if |x| == 3 {
      assert x[2] == x[1..][1];
    } else {
      assert x[|x| - 1] == x[4..][|x| - 5];
    }
  }

  lemma ClockEndsSolid(u: Tables, x: Text)
    requires Sane(u) && IsClock(x)
    ensures x != [] && !u.space(x[|x| - 1])
  {
    hide IsSeconds, IsOffset;
    var h, k :| ClockAt(x, h, k);
    if k < |x| {
      OffsetEndsSolid(u, x[k..]);
    } else if k > h + 3 {
      SecondsEndSolid(u, x[h + 3..k]);
    } else {
      assert x[h + 2] == x[h + 1..h + 3][1];
    }
  }

  lemma TimestampEndsSolid(u: Tables, x: Text)
    requires Sane(u) && IsTimestamp(x)
    ensures x != [] && !u.space(x[|x| - 1])
  {
    hide IsClock;
    if IsDate(x) {
      assert x[9] == x[8..][1];
    } else if IsClock(x) {
      ClockEndsSolid(u, x);
    } else {
      ClockEndsSolid(u, x[11..]);
    }
  }

  lemma NumberEndsSolid(u: Tables, x: Text)
    requires Sane(u) && IsNumber(x)
    ensures x != [] && !u.space(x[|x| - 1])
  {
    var sign, whole :| NumberAt(x, sign, whole);
    if whole == |x| {
      assert x[|x| - 1] == x[sign..whole][whole - sign - 1];
    } else {
      assert x[|x| - 1] == x[whole + 1..][|x| - whole - 2];
    }
  }

  lemma MarkIsTidy(u: Tables, mark: Text, rest: Text, afterSpace: bool)
    requires Sane(u) && (mark == "<t>" || mark == "<n>")
    ensures Tidy(u, mark + rest, afterSpace) == Tidy(u, rest, false)
  {
    assert IsWord(u, mark);
    TidyWord(u, mark, rest, afterSpace);
  }

  lemma {:induction false} TemplateIsTidy(u: Tables, tokens: seq<Token>, afterSpace: bool)
    requires Sane(u) && (forall t :: t in tokens ==> MeetsTheGrammar(t))
    requires Tidy(u, Concat(tokens), afterSpace)
    ensures Tidy(u, Template(tokens), afterSpace)
  {
    hide IsTimestamp, IsNumber;
    if tokens != [] {
      var t, rest := tokens[0], tokens[1..];
      assert t in tokens;
      if t.Plain? {
        assert Concat(tokens)[1..] == Concat(rest) && Template(tokens)[1..] == Template(rest);
        TemplateIsTidy(u, rest, u.space(t.text[0]));
      } else {
        if t.Stamp? {
          TimestampEndsSolid(u, t.text);
        } else {
          NumberEndsSolid(u, t.text);
        }
        TidySkip(u, t.text, Concat(rest), afterSpace);
        TemplateIsTidy(u, rest, false);
        MarkIsTidy(u, Shown(t), Template(rest), afterSpace);
      }
    }
  }

  lemma {:induction false} TemplateIsLowered(u: Tables, tokens: seq<Token>)
    requires Sane(u) && Lowered(u, Concat(tokens))
    requires forall t :: t in tokens ==> MeetsTheGrammar(t)
    ensures Lowered(u, Template(tokens))
  {
    hide IsTimestamp, IsNumber;
    if tokens != [] {
      var t, rest := tokens[0], tokens[1..];
      assert t in tokens;
      assert Lowered(u, Concat(rest)) by {
        forall i | 0 <= i < |Concat(rest)|
          ensures u.lower(Concat(rest)[i]) == Concat(rest)[i]
        {
          assert Concat(rest)[i] == Concat(tokens)[|t.text| + i];
        }
      }
      TemplateIsLowered(u, rest);
      assert Lowered(u, Shown(t)) by {
        assert t.Plain? ==> t.text[0] == Concat(tokens)[0];
      }
    }
  }

  /** Masking is a projection on raw text too: masking a template gives that template and no numbers. */
  lemma MaskOfTemplate(u: Tables, text: Text)
    requires Sane(u)
    ensures Mask(u, Mask(u, text).template) == Masked(Mask(u, text).template, [])
  {
    hide IsTimestamp, IsNumber, NextToken;
    var s := Normalise(u, text);
    var tokens := Scan(u.alnum, s, 0);
    var template := Template(tokens);
    NormaliseIsNormal(u, text);
    ScanLossless(u.alnum, s, 0);
    assert s[0..] == s;
    TokensMeetTheGrammar(u.alnum, s, 0);
    TemplateIsLowered(u, tokens);
    if s != [] {
      TemplateIsTidy(u, tokens, true);
    }
    NormalIsFixed(u, template);
    MaskingIsIdempotent(u.alnum, s);
  }

  // ----- date-times in raw text -----

  /** Text cut at white space: the words of each side. */
  lemma {:induction false} WordsSplit(u: Tables, a: Text, b: Text)
    requires (a != [] ==> u.space(a[|a| - 1])) || (b != [] ==> u.space(b[0]))
    ensures Words(u, a + b) == Words(u, a) + Words(u, b)
    decreases |a|
  {
    hide Words, WordEnd;
    WordsHere(u, a);
    WordsHere(u, a + b);
    if a == [] {
      assert a + b == b;
    } else if u.space(a[0]) {
      assert (a + b)[1..] == a[1..] + b;
      WordsSplit(u, a[1..], b);
    } else {
      var k := WordEnd(u, a);
      WordEndSplit(u, a, b);
      assert (a + b)[..k] == a[..k] && (a + b)[k..] == a[k..] + b;
      WordsSplit(u, a[k..], b);
      Assoc([a[..k]], Words(u, a[k..]), Words(u, b));
    }
  }

  lemma {:induction false} WordsHere(u: Tables, s: Text)
    ensures s == [] ==> Words(u, s) == []
    ensures s != [] && u.space(s[0]) ==> Words(u, s) == Words(u, s[1..])
    ensures s != [] && !u.space(s[0]) ==>
              WordEnd(u, s) > 0 && Words(u, s) == [s[..WordEnd(u, s)]] + Words(u, s[WordEnd(u, s)..])
  {
  }

  lemma {:induction false} WordEndSplit(u: Tables, a: Text, b: Text)
    requires a != [] && ((u.space(a[|a| - 1])) || (b != [] ==> u.space(b[0])))
    ensures WordEnd(u, a + b) == WordEnd(u, a)
  {
    assert (a + b)[0] == a[0] && (a + b)[1..] == a[1..] + b;
    if !u.space(a[0]) {
      if |a| == 1 {
        assert a[1..] + b == b;
      } else {
        WordEndSplit(u, a[1..], b);
      }
    }
  }

  lemma {:induction false} JoinAppend(a: seq<Text>, b: seq<Text>)
    requires a != [] && b != []
    ensures Join(a + b) == Join(a) + " " + Join(b)
  {
    assert (a + b)[0] == a[0] && (a + b)[1..] == a[1..] + b;
    if |a| == 1 {
      assert a[1..] + b == b;
    } else {
      JoinAppend(a[1..], b);
      assert a[0] + " " + (Join(a[1..]) + " " + Join(b)) == a[0] + " " + Join(a[1..]) + " " + Join(b);
    }
  }

  lemma LowerAppend(u: Tables, a: Text, b: Text)
    ensures Lower(u, a + b) == Lower(u, a) + Lower(u, b)
  {
  }

  /** Two texts side by side, with a space between them unless one is empty. */
  function Beside(a: Text, b: Text): Text {
    if a == [] then b else if b == [] then a else a + " " + b
  }

  lemma NormaliseSplit(u: Tables, a: Text, b: Text)
    requires Sane(u)
    requires (a != [] ==> u.space(a[|a| - 1])) || (b != [] ==> u.space(b[0]))
    ensures Normalise(u, a + b) == Beside(Normalise(u, a), Normalise(u, b))
  {
    WordsSplit(u, a, b);
    var x, y := Words(u, a), Words(u, b);
    WordsAreWords(u, a);
    WordsAreWords(u, b);
    if x == [] {
      assert x + y == y;
    } else if y == [] {
      assert x + y == x;
      JoinNonEmpty(x);
    } else {
      JoinAppend(x, y);
      JoinNonEmpty(x);
      JoinNonEmpty(y);
      LowerAppend(u, Join(x) + " ", Join(y));
      LowerAppend(u, Join(x), " ");
      assert Lower(u, " ") == " ";
    }
  }

  lemma {:induction false} JoinNonEmpty(words: seq<Text>)
    requires words != [] && forall w :: w in words ==> w != []
    ensures Join(words) != []
  {
    assert words[0] in words;
  }

  lemma {:induction false} SingleWord(u: Tables, w: Text)
    requires IsWord(u, w)
    ensures Normalise(u, w) == Lower(u, w)
  {
    WordIsWhole(u, w);
    assert w[..|w|] == w && w[|w|..] == [];
    assert Words(u, w) == [w];
  }

  lemma {:induction false} WordIsWhole(u: Tables, w: Text)
    requires forall i :: 0 <= i < |w| ==> !u.space(w[i])
    ensures WordEnd(u, w) == |w|
  {
    var k := WordEnd(u, w);
    assert k < |w| ==> u.space(w[k]);
  }

  /**
   In raw text, a date-time bounded by white space or text ends, in either case and with `T`
   or any white space between its two parts, shows as one `<t>` and adds no number, and the
   rest of the text is masked as if it were not there.
   */
  lemma {:induction false} RawDateTimeMasked(u: Tables, pre: Text, x: Text, post: Text)
    requires Sane(u) && IsDateTime(Normalise(u, x))
    requires pre != [] ==> u.space(pre[|pre| - 1])
    requires post != [] ==> u.space(post[0])
    ensures var whole, before, after := Mask(u, pre + x + post), Mask(u, pre), Mask(u, post);
            && whole.template == Beside(Beside(before.template, "<t>"), after.template)
            && whole.numbers == before.numbers + after.numbers
  {
    var p, d, q := Normalise(u, pre), Normalise(u, x), Normalise(u, post);
    hide IsDateTime, Scan, Template, Numbers, Normalise;
    DateTimeIsText(d);
    NormaliseSplit(u, pre, x);
    NormaliseSplit(u, pre + x, post);
    var left := if p == [] then [] else p + " ";
    var right := if q == [] then [] else " " + q;
    assert Normalise(u, pre + x + post) == left + d + right;
    DateTimeMasked(u.alnum, left, d, right);
    LeftPart(u.alnum, p);
    RightPart(u.alnum, q);
  }

  lemma DateTimeIsText(x: Text)
    requires IsDateTime(x)
    ensures x != []
  {
  }

  /** The two ways to write one: as one word, or as a date and a time with white space between. */
  lemma {:induction false} RawDateTimeForms(u: Tables, x: Text, gap: Text, y: Text)
    requires Sane(u) && IsWord(u, x) && IsWord(u, y)
    requires gap != [] && forall i :: 0 <= i < |gap| ==> u.space(gap[i])
    ensures Normalise(u, x) == Lower(u, x)
    ensures Normalise(u, x + gap + y) == Lower(u, x) + " " + Lower(u, y)
  {
    SingleWord(u, x);
    SingleWord(u, y);
    NormaliseSplit(u, x, gap);
    NormaliseSplit(u, x + gap, y);
    NoWords(u, gap);
  }

  lemma {:induction false} NoWords(u: Tables, s: Text)
    requires forall i :: 0 <= i < |s| ==> u.space(s[i])
    ensures Normalise(u, s) == []
  {
    if s != [] {
      NoWords(u, s[1..]);
    }
  }

  lemma {:induction false} LeftPart(alnum: char -> bool, p: Text)
    requires AlnumOk(alnum)
    ensures var left := if p == [] then [] else p + " ";
            && Beside(Template(Scan(alnum, p, 0)), "<t>") == Template(Scan(alnum, left, 0)) + "<t>"
            && Numbers(Scan(alnum, left, 0)) == Numbers(Scan(alnum, p, 0))
  {
    hide Scan, Template, Numbers, NextToken;
    NothingRead(alnum, []);
    if p != [] {
      ScanTrailingBreak(alnum, p, ' ');
      Extend(Scan(alnum, p, 0), Plain(" "));
      TemplateNonEmpty(alnum, p);
    }
  }

  lemma {:induction false} RightPart(alnum: char -> bool, q: Text)
    requires AlnumOk(alnum)
    ensures var right := if q == [] then [] else " " + q;
            && (forall t :: t != [] ==> Beside(t, Template(Scan(alnum, q, 0))) == t + Template(Scan(alnum, right, 0)))
            && Numbers(Scan(alnum, right, 0)) == Numbers(Scan(alnum, q, 0))
  {
    hide Scan, Template, Numbers, NextToken;
    NothingRead(alnum, []);
    if q != [] {
      ScanBreak(alnum, ' ', q);
      SpaceFirst(Scan(alnum, q, 0));
      TemplateNonEmpty(alnum, q);
    }
  }

  lemma SpaceFirst(tokens: seq<Token>)
    ensures Template([Plain(" ")] + tokens) == " " + Template(tokens)
    ensures Numbers([Plain(" ")] + tokens) == Numbers(tokens)
  {
    assert ([Plain(" ")] + tokens)[1..] == tokens;
  }

  lemma TemplateNonEmpty(alnum: char -> bool, s: Text)
    requires s != []
    ensures Template(Scan(alnum, s, 0)) != []
  {
    hide NextToken;
    ScanStep(alnum, s, 0);
  }

  // ----- classification -----

  datatype SeriesReason = ValuesChanged | SameSourceLater

  datatype Relation = Exact | SeriesUpdate(reason: SeriesReason) | NearDuplicate

  /** Six hours, in nanoseconds. */
  const SERIES_MIN_AGE: int := 6 * 3600 * 1_000_000_000

  datatype Incoming = Incoming(content: Text, contentHash: string, wing: Option<string>, sourceFile: Option<string>, now: int)

  datatype Candidate = Candidate(content: Text, contentHash: string, wing: string, sourceFile: string, filedAt: Option<int>)

  predicate SameSource(a: Incoming, b: Candidate) {
    && a.wing.Some? && a.sourceFile.Some? && a.sourceFile.value != ""
    && a.wing.value == b.wing && a.sourceFile.value == b.sourceFile
  }

  predicate OldEnough(a: Incoming, b: Candidate) {
    b.filedAt.Some? && a.now - b.filedAt.value >= SERIES_MIN_AGE
  }

  function Classify(u: Tables, a: Incoming, b: Candidate): Relation {
    if a.contentHash == b.contentHash then Exact
    else
      var x, y := Mask(u, a.content), Mask(u, b.content);
      if x.template != y.template then NearDuplicate
      else if x.numbers != y.numbers then SeriesUpdate(ValuesChanged)
      else if SameSource(a, b) && OldEnough(a, b) then SeriesUpdate(SameSourceLater)
      else NearDuplicate
  }

  /**
   Two contents whose normalised texts differ in digits only are never taken for unrelated
   texts: with different hashes they are a change of values exactly when some digit inside
   a number differs; if digits differ only inside timestamps, the source and the age decide.
   */
  lemma ClassifySameShape(u: Tables, a: Incoming, b: Candidate)
    requires Sane(u) && a.contentHash != b.contentHash
    requires SameShape(Normalise(u, a.content), Normalise(u, b.content))
    ensures var s, t := Normalise(u, a.content), Normalise(u, b.content);
            var inNumber := InNumber(Scan(u.alnum, s, 0));
            && |inNumber| == |s|
            && (Classify(u, a, b) == SeriesUpdate(ValuesChanged) <==>
                exists i :: 0 <= i < |s| && inNumber[i] && s[i] != t[i])
            && (Classify(u, a, b) == SeriesUpdate(SameSourceLater) <==>
                && (forall i :: 0 <= i < |s| && inNumber[i] ==> s[i] == t[i])
                && SameSource(a, b) && OldEnough(a, b))
  {
    hide Scan, Template, Numbers, InNumber;
    DigitShapeInvariance(u.alnum, Normalise(u, a.content), Normalise(u, b.content));
  }

  /**
   Every answer, for every pair of contents: equal hashes are exact whatever the contents;
   without them, other templates make it a near-duplicate, other numbers a change of values,
   and the same numbers a later state of the source when it is one, and else a near-duplicate.
   */
  lemma ClassifyExactly(u: Tables, a: Incoming, b: Candidate)
    ensures Classify(u, a, b) == Exact <==> a.contentHash == b.contentHash
    ensures var x, y := Mask(u, a.content), Mask(u, b.content);
            var later :=
              && a.wing == Some(b.wing) && a.sourceFile == Some(b.sourceFile) && b.sourceFile != ""
              && b.filedAt.Some? && a.now >= b.filedAt.value + 21_600 * 1_000_000_000;
            && (Classify(u, a, b) == SeriesUpdate(ValuesChanged) <==>
                a.contentHash != b.contentHash && x.template == y.template && x.numbers != y.numbers)
            && (Classify(u, a, b) == SeriesUpdate(SameSourceLater) <==>
                a.contentHash != b.contentHash && x.template == y.template && x.numbers == y.numbers && later)
            && (Classify(u, a, b) == NearDuplicate <==>
                a.contentHash != b.contentHash && (x.template != y.template || (x.numbers == y.numbers && !later)))
  {
    hide Mask;
  }

  // ----- normalisation loses nothing but white space and case -----

  /** The characters that are no white space. */
  function Visible(u: Tables, s: Text): Text {
    if s == [] then [] else (if u.space(s[0]) then [] else [s[0]]) + Visible(u, s[1..])
  }

  lemma {:induction false} VisibleAppend(u: Tables, a: Text, b: Text)
    ensures Visible(u, a + b) == Visible(u, a) + Visible(u, b)
  {
    if a == [] {
      assert a + b == b;
    } else {
      assert (a + b)[1..] == a[1..] + b;
      VisibleAppend(u, a[1..], b);
    }
  }

  lemma {:induction false} VisibleWord(u: Tables, w: Text)
    requires forall i :: 0 <= i < |w| ==> !u.space(w[i])
    ensures Visible(u, w) == w
  {
    if w != [] {
      VisibleWord(u, w[1..]);
    }
  }

  lemma {:induction false} VisibleLower(u: Tables, s: Text)
    requires Sane(u)
    ensures Visible(u, Lower(u, s)) == Lower(u, Visible(u, s))
  {
    if s != [] {
      assert Lower(u, s)[1..] == Lower(u, s[1..]);
      VisibleLower(u, s[1..]);
      assert u.space(u.lower(s[0])) == u.space(s[0]);
      LowerAppend(u, if u.space(s[0]) then [] else [s[0]], Visible(u, s[1..]));
    }
  }

  lemma {:induction false} VisibleJoin(u: Tables, words: seq<Text>)
    requires u.space(' ')
    ensures Visible(u, Join(words)) == VisibleOf(u, words)
  {
    if words != [] {
      VisibleJoin(u, words[1..]);
      if |words| == 1 {
        assert VisibleOf(u, words[1..]) == [];
      } else {
        VisibleAppend(u, words[0] + " ", Join(words[1..]));
        VisibleAppend(u, words[0], " ");
        assert Visible(u, " ") == [];
      }
    }
  }

  function VisibleOf(u: Tables, words: seq<Text>): Text {
    if words == [] then [] else Visible(u, words[0]) + VisibleOf(u, words[1..])
  }

  lemma {:induction false} VisibleWords(u: Tables, s: Text)
    ensures VisibleOf(u, Words(u, s)) == Visible(u, s)
    decreases |s|
  {
    if s != [] {
      if u.space(s[0]) {
        VisibleWords(u, s[1..]);
      } else {
        var k := WordEnd(u, s);
        VisibleWords(u, s[k..]);
        VisibleAppend(u, s[..k], s[k..]);
        assert s == s[..k] + s[k..];
      }
    }
  }

  /** The visible characters of a normalised text are those of the text, in order, in lower case. */
  lemma {:induction false} NormaliseKeepsText(u: Tables, s: Text)
    requires Sane(u)
    ensures Visible(u, Normalise(u, s)) == Lower(u, Visible(u, s))
  {
    hide Words, Visible, VisibleOf, Join;
    VisibleLower(u, Join(Words(u, s)));
    VisibleJoin(u, Words(u, s));
    VisibleWords(u, s);
  }
}
