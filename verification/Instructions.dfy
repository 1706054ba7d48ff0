/**
 Rewriting of active instruction files: the old tool prefixes and the old command become
 the new ones, and durable names that merely contain an old prefix are left alone.
 */
module Instructions {
  import opened Options

  type Text = seq<char>

  predicate OccursAt(text: Text, i: nat, pattern: Text) {
    i + |pattern| <= |text| && text[i..i + |pattern|] == pattern
  }

  /** The character before `i` keeps an occurrence there from being rewritten. */
  predicate Blocked(blocks: char -> bool, text: Text, i: nat) {
    0 < i <= |text| && blocks(text[i - 1])
  }

  predicate Active(blocks: char -> bool, text: Text, i: nat, pattern: Text) {
    OccursAt(text, i, pattern) && !Blocked(blocks, text, i)
  }

  /** A pattern and what replaces it, unless it follows a character that blocks it. */
  datatype Rule = Rule(blocks: char -> bool, pattern: Text, replacement: Text)

  /** Reading from `i` on, each active occurrence is replaced and everything else is kept. */
  function Rewrite(r: Rule, text: Text, i: nat): Text
    requires r.pattern != []
    decreases |text| - i
  {
    if i >= |text| then []
    else if Active(r.blocks, text, i, r.pattern) then r.replacement + Rewrite(r, text, i + |r.pattern|)
    else [text[i]] + Rewrite(r, text, i + 1)
  }

  // ----- patterns that cannot overlap -----

  /** Laid over `p` with its start at offset `k`, `q` differs from it somewhere. */
  ghost predicate Differs(p: Text, k: nat, q: Text) {
    exists j :: 0 <= j < |q| && k + j < |p| && p[k + j] != q[j]
  }

  /** No text holds overlapping occurrences of the two, other than one and the same occurrence. */
  ghost predicate Unmixed(p: Text, q: Text) {
    && p != [] && q != []
    && (forall k :: 0 <= k < |p| && (k > 0 || p != q) ==> Differs(p, k, q))
    && (forall k :: 0 <= k < |q| && (k > 0 || p != q) ==> Differs(q, k, p))
  }

  lemma OverlapDiffers(text: Text, i: nat, p: Text, j: nat, q: Text)
    requires OccursAt(text, i, p) && OccursAt(text, j, q) && i <= j < i + |p|
    ensures !Differs(p, j - i, q)
  {
    forall x | 0 <= x < |q| && j - i + x < |p|
      ensures p[j - i + x] == q[x]
    {
      assert text[i..i + |p|][j - i + x] == text[j + x];
      assert text[j..j + |q|][x] == text[j + x];
    }
  }

  lemma OccurrencesApart(text: Text, i: nat, p: Text, j: nat, q: Text)
    requires Unmixed(p, q) && OccursAt(text, i, p) && OccursAt(text, j, q)
    ensures i + |p| <= j || j + |q| <= i || (i == j && p == q)
  {
    if i <= j < i + |p| {
      OverlapDiffers(text, i, p, j, q);
    } else if j < i < j + |q| {
      OverlapDiffers(text, j, q, i, p);
    }
  }

  /** Text put in front moves an occurrence and neither makes nor breaks one. */
  lemma OccursShift(a: Text, b: Text, j: nat, p: Text)
    ensures OccursAt(a + b, |a| + j, p) == OccursAt(b, j, p)
  {
    if j + |p| <= |b| {
      assert (a + b)[|a| + j..|a| + j + |p|] == b[j..j + |p|];
    }
  }

  lemma OccursInFront(a: Text, b: Text)
    ensures OccursAt(a + b, 0, a)
  {
    assert (a + b)[0..|a|] == a;
  }

  // ----- the loop of the source -----

  /** The first occurrence at or after `pos`, as `match_indices` finds it. */
  method FindFrom(text: Text, pos: nat, pattern: Text) returns (offset: Option<nat>)
    requires pos <= |text| && pattern != []
    ensures offset.Some? ==> pos <= offset.value && OccursAt(text, offset.value, pattern)
    ensures offset.Some? ==> forall k :: pos <= k < offset.value ==> !OccursAt(text, k, pattern)
    ensures offset.None? ==> forall k :: pos <= k <= |text| ==> !OccursAt(text, k, pattern)
  {
    var i := pos;
    while i < |text|
      invariant pos <= i <= |text|
      invariant forall k :: pos <= k < i ==> !OccursAt(text, k, pattern)
    {
      if OccursAt(text, i, pattern) {
        return Some(i);
      }
      i := i + 1;
    }
    return None;
  }

  lemma {:induction false} RewriteQuietStretch(r: Rule, text: Text, i: nat, j: nat)
    requires r.pattern != [] && i <= j <= |text|
    requires forall k :: i <= k < j ==> !Active(r.blocks, text, k, r.pattern)
    ensures Rewrite(r, text, i) == text[i..j] + Rewrite(r, text, j)
    decreases j - i
  {
    if i < j {
      RewriteQuietStretch(r, text, i + 1, j);
      assert text[i..j] == [text[i]] + text[i + 1..j];
      assert [text[i]] + (text[i + 1..j] + Rewrite(r, text, j)) == [text[i]] + text[i + 1..j] + Rewrite(r, text, j);
    } else {
      assert text[i..j] == [];
    }
  }

  lemma {:induction false} RewriteHere(r: Rule, text: Text, i: nat)
    requires r.pattern != [] && i <= |text|
    ensures i == |text| ==> Rewrite(r, text, i) == []
    ensures i < |text| && Active(r.blocks, text, i, r.pattern) ==>
              Rewrite(r, text, i) == r.replacement + Rewrite(r, text, i + |r.pattern|)
    ensures i < |text| && !Active(r.blocks, text, i, r.pattern) ==>
              Rewrite(r, text, i) == [text[i]] + Rewrite(r, text, i + 1)
  {
  }

  /** Nothing overlaps an occurrence, so nothing starts inside one. */
  lemma InsideOccurrence(text: Text, offset: nat, pattern: Text)
    requires Unmixed(pattern, pattern) && OccursAt(text, offset, pattern)
    ensures forall k :: offset < k < offset + |pattern| ==> !OccursAt(text, k, pattern)
  {
    forall k | offset < k < offset + |pattern|
      ensures !OccursAt(text, k, pattern)
    {
      if OccursAt(text, k, pattern) {
        OccurrencesApart(text, offset, pattern, k, pattern);
      }
    }
  }

  lemma Extend(result: Text, kept: Text, replacement: Text, rest: Text)
    ensures result + (kept + (replacement + rest)) == result + kept + replacement + rest
  {
  }

  /** The helper `prefix`: walk the occurrences, and copy what lies between those to replace. */
  method RewriteLoop(r: Rule, text: Text) returns (result: Text)
    requires Unmixed(r.pattern, r.pattern)
    ensures result == Rewrite(r, text, 0)
  {
    hide Unmixed, Rewrite;
    NonEmpty(r.pattern, r.pattern);
    result := [];
    var last: nat := 0;
    var pos: nat := 0;
    while true
      invariant last <= pos <= |text|
      invariant Rewrite(r, text, 0) == result + Rewrite(r, text, last)
      invariant forall k :: last <= k < pos ==> !Active(r.blocks, text, k, r.pattern)
      decreases |text| - pos
    {
      var found := FindFrom(text, pos, r.pattern);
      if found.None? {
        break;
      }
      var offset := found.value;
      InsideOccurrence(text, offset, r.pattern);
      pos := offset + |r.pattern|;
      if Blocked(r.blocks, text, offset) {
        continue;
      }
      RewriteQuietStretch(r, text, last, offset);
      RewriteHere(r, text, offset);
      Extend(result, text[last..offset], r.replacement, Rewrite(r, text, pos));
      result := result + text[last..offset] + r.replacement;
      last := pos;
    }
    assert forall k :: last <= k < |text| ==> !Active(r.blocks, text, k, r.pattern);
    RewriteQuietStretch(r, text, last, |text|);
    RewriteHere(r, text, |text|);
    assert text[last..|text|] == text[last..];
    result := result + text[last..];
  }

  // ----- nothing is left to rewrite -----

  ghost predicate Quiet(blocks: char -> bool, text: Text, pattern: Text) {
    forall i :: 0 <= i <= |text| ==> !Active(blocks, text, i, pattern)
  }

  /** Text with nothing to rewrite is kept as it is. */
  lemma QuietIsKept(r: Rule, text: Text)
    requires r.pattern != [] && Quiet(r.blocks, text, r.pattern)
    ensures Rewrite(r, text, 0) == text
  {
    RewriteQuietStretch(r, text, 0, |text|);
    assert text[0..|text|] == text;
  }

  /** Up to the first replacement the text is copied. */
  lemma {:induction false} FirstReplacement(r: Rule, text: Text, i: nat) returns (m: nat)
    requires r.pattern != [] && i <= |text|
    ensures i + m <= |text| && m <= |Rewrite(r, text, i)|
    ensures Rewrite(r, text, i)[..m] == text[i..i + m]
    ensures forall k :: i <= k < i + m ==> !Active(r.blocks, text, k, r.pattern)
    ensures i + m == |text| ==> m == |Rewrite(r, text, i)|
    ensures i + m < |text| ==> Active(r.blocks, text, i + m, r.pattern) && OccursAt(Rewrite(r, text, i), m, r.replacement)
    decreases |text| - i
  {
    hide OccursAt, Blocked;
    if i < |text| && !Active(r.blocks, text, i, r.pattern) {
      var k := FirstReplacement(r, text, i + 1);
      m := k + 1;
      var rest := Rewrite(r, text, i + 1);
      assert ([text[i]] + rest)[..m] == [text[i]] + rest[..k];
      assert text[i..i + m] == [text[i]] + text[i + 1..i + 1 + k];
      OccursShift([text[i]], rest, k, r.replacement);
    } else {
      m := 0;
      if i < |text| {
        OccursInFront(r.replacement, Rewrite(r, text, i + |r.pattern|));
      }
    }
  }

  /** Every occurrence of `pattern` in `s` is blocked, `before` being what stands in front of `s`. */
  ghost predicate QuietAfter(blocks: char -> bool, before: Option<char>, s: Text, pattern: Text) {
    forall j {:trigger OccursAt(s, j, pattern)} :: 0 <= j <= |s| && OccursAt(s, j, pattern) ==>
      if j == 0 then before.Some? && blocks(before.value) else blocks(s[j - 1])
  }

  function Before(text: Text, i: nat): Option<char>
    requires i <= |text|
  {
    if i == 0 then None else Some(text[i - 1])
  }

  /** What makes one rewriting pass leave a pattern quiet: see `PassLeavesQuiet`. */
  ghost predicate Clears(r: Rule, blocks: char -> bool, text: Text, p: Text) {
    && r.pattern != [] && r.replacement != [] && p != r.replacement
    && Unmixed(p, r.replacement)
    && r.pattern[|r.pattern| - 1] == r.replacement[|r.replacement| - 1]
    && forall i :: 0 <= i <= |text| && Active(blocks, text, i, p) ==> Active(r.blocks, text, i, r.pattern)
  }

  lemma {:induction false} QuietFrom(r: Rule, blocks: char -> bool, text: Text, p: Text, i: nat)
    requires Clears(r, blocks, text, p) && i <= |text|
    ensures QuietAfter(blocks, Before(text, i), Rewrite(r, text, i), p)
    decreases |text| - i
  {
    if i < |text| {
      if Active(r.blocks, text, i, r.pattern) {
        var next := i + |r.pattern|;
        assert text[next - 1] == text[i..next][|r.pattern| - 1];
        hide OccursAt, QuietAfter;
        QuietFrom(r, blocks, text, p, next);
        QuietAfterReplacement(r, blocks, text[next - 1], Before(text, i), Rewrite(r, text, next), p);
      } else {
        hide OccursAt, QuietAfter;
        QuietFrom(r, blocks, text, p, i + 1);
        if OccursAt(Rewrite(r, text, i), 0, p) {
          QuietAtCopied(r, blocks, text, p, i);
        }
        QuietAfterCopied(blocks, text[i], Before(text, i), Rewrite(r, text, i + 1), p);
      }
    } else {
      assert p != [];
    }
  }

  lemma QuietAfterCopied(blocks: char -> bool, c: char, before: Option<char>, rest: Text, p: Text)
    requires QuietAfter(blocks, Some(c), rest, p)
    requires OccursAt([c] + rest, 0, p) ==> before.Some? && blocks(before.value)
    ensures QuietAfter(blocks, before, [c] + rest, p)
  {
    var whole := [c] + rest;
    forall j | 0 <= j <= |whole| && OccursAt(whole, j, p)
      ensures if j == 0 then before.Some? && blocks(before.value) else blocks(whole[j - 1])
    {
      if j > 0 {
        OccursShift([c], rest, j - 1, p);
      }
    }
  }

  lemma QuietAfterReplacement(r: Rule, blocks: char -> bool, c: char, before: Option<char>, rest: Text, p: Text)
    requires r.pattern != [] && r.replacement != [] && Unmixed(p, r.replacement) && p != r.replacement
    requires c == r.pattern[|r.pattern| - 1] == r.replacement[|r.replacement| - 1]
    requires QuietAfter(blocks, Some(c), rest, p)
    ensures QuietAfter(blocks, before, r.replacement + rest, p)
  {
    hide Unmixed;
    var n := |r.replacement|;
    var whole := r.replacement + rest;
    forall j | 0 <= j <= |whole| && OccursAt(whole, j, p)
      ensures if j == 0 then before.Some? && blocks(before.value) else blocks(whole[j - 1])
    {
      OccursInFront(r.replacement, rest);
      OccurrencesApart(whole, j, p, 0, r.replacement);
      NonEmpty(p, r.replacement);
      OccursShift(r.replacement, rest, j - n, p);
      assert OccursAt(rest, j - n, p);
    }
  }

  lemma NonEmpty(p: Text, q: Text)
    requires Unmixed(p, q)
    ensures p != [] && q != []
  {
  }

  /** An occurrence that starts at a copied character was there before the pass. */
  lemma WasThere(r: Rule, text: Text, i: nat, p: Text)
    requires r.pattern != [] && Unmixed(p, r.replacement)
    requires i < |text| && !Active(r.blocks, text, i, r.pattern)
    requires OccursAt(Rewrite(r, text, i), 0, p)
    ensures OccursAt(text, i, p)
  {
    hide Unmixed;
    NonEmpty(p, r.replacement);
    var whole := Rewrite(r, text, i);
    var m := FirstReplacement(r, text, i);
    if i + m < |text| {
      OccurrencesApart(whole, 0, p, m, r.replacement);
    }
    assert whole[0..|p|] == whole[..m][..|p|] == text[i..i + m][..|p|] == text[i..i + |p|];
  }

  lemma QuietAtCopied(r: Rule, blocks: char -> bool, text: Text, p: Text, i: nat)
    requires Clears(r, blocks, text, p) && i < |text| && !Active(r.blocks, text, i, r.pattern)
    requires OccursAt(Rewrite(r, text, i), 0, p)
    ensures Blocked(blocks, text, i)
  {
    WasThere(r, text, i, p);
  }

  /** A pass leaves a pattern quiet if its active occurrences are all replaced by the pass. */
  lemma PassLeavesQuiet(r: Rule, blocks: char -> bool, text: Text, p: Text)
    requires Clears(r, blocks, text, p)
    ensures Quiet(blocks, Rewrite(r, text, 0), p)
  {
    QuietFrom(r, blocks, text, p, 0);
  }

  // ----- blocked occurrences survive -----

  /** The end of a text, taken off behind a longer front. */
  lemma DropBehind(a: Text, b: Text, k: nat)
    requires k <= |b|
    ensures |a| + k <= |a + b| && (a + b)[|a| + k..] == b[k..]
  {
  }

  /**
   An occurrence that no replaced one overlaps is found again, after the same character, and
   what follows it is what the rewriting of the rest gives: so each has a place of its own.
   */
  lemma {:induction false} Survives(r: Rule, text: Text, i: nat, j: nat, p: Text) returns (d: nat)
    requires r.pattern != [] && r.replacement != [] && Unmixed(p, r.pattern)
    requires r.pattern[|r.pattern| - 1] == r.replacement[|r.replacement| - 1]
    requires i <= j && OccursAt(text, j, p) && (p == r.pattern ==> Blocked(r.blocks, text, j))
    ensures OccursAt(Rewrite(r, text, i), d, p)
    ensures d == 0 <==> i == j
    ensures d > 0 ==> Rewrite(r, text, i)[d - 1] == text[j - 1]
    ensures d <= |Rewrite(r, text, i)| && Rewrite(r, text, i)[d..] == Rewrite(r, text, j)
    decreases |text| - i
  {
    hide Unmixed, Rewrite;
    NonEmpty(p, r.pattern);
    RewriteHere(r, text, i);
    if i == j {
      d := 0;
      SurvivesHere(r, text, i, p);
    } else if Active(r.blocks, text, i, r.pattern) {
      OccurrencesApart(text, j, p, i, r.pattern);
      var next := i + |r.pattern|;
      assert text[next - 1] == text[i..next][|r.pattern| - 1];
      var k := Survives(r, text, next, j, p);
      d := |r.replacement| + k;
      FoundBehind(r.replacement, Rewrite(r, text, next), k, p, text[j - 1]);
      DropBehind(r.replacement, Rewrite(r, text, next), k);
    } else {
      var k := Survives(r, text, i + 1, j, p);
      d := 1 + k;
      FoundBehind([text[i]], Rewrite(r, text, i + 1), k, p, text[j - 1]);
      DropBehind([text[i]], Rewrite(r, text, i + 1), k);
    }
  }

  /** Two such occurrences keep their order, and so are never taken for one. */
  lemma {:induction false} SurviveApart(r: Rule, text: Text, j: nat, k: nat, p: Text)
    requires r.pattern != [] && r.replacement != [] && Unmixed(p, r.pattern)
    requires r.pattern[|r.pattern| - 1] == r.replacement[|r.replacement| - 1]
    requires j < k && OccursAt(text, k, p) && (p == r.pattern ==> Blocked(r.blocks, text, k))
    ensures |Rewrite(r, text, k)| < |Rewrite(r, text, j)|
  {
    var d := Survives(r, text, j, k, p);
  }

  lemma FoundBehind(a: Text, b: Text, k: nat, p: Text, c: char)
    requires a != [] && OccursAt(b, k, p) && (if k == 0 then a[|a| - 1] == c else b[k - 1] == c)
    ensures OccursAt(a + b, |a| + k, p) && (a + b)[|a| + k - 1] == c
  {
    OccursShift(a, b, k, p);
  }

  lemma SurvivesHere(r: Rule, text: Text, i: nat, p: Text)
    requires r.pattern != [] && Unmixed(p, r.pattern)
    requires OccursAt(text, i, p) && (p == r.pattern ==> Blocked(r.blocks, text, i))
    ensures OccursAt(Rewrite(r, text, i), 0, p)
  {
    hide Unmixed, Differs;
    NonEmpty(p, r.pattern);
    var whole := Rewrite(r, text, i);
    var m := FirstReplacement(r, text, i);
    if i + m < |text| {
      OccurrencesApart(text, i, p, i + m, r.pattern);
    }
    assert whole[0..|p|] == whole[..m][..|p|] == text[i..i + m][..|p|] == text[i..i + |p|];
  }

  // ----- a pass can be undone -----

  /** The reverse pass: every replacement goes back, whatever it follows. */
  function Back(r: Rule): Rule {
    Rule(c => false, r.replacement, r.pattern)
  }

  lemma {:induction false} BackShift(r: Rule, a: Text, b: Text, j: nat)
    requires r.replacement != [] && j <= |b|
    ensures Rewrite(Back(r), a + b, |a| + j) == Rewrite(Back(r), b, j)
    decreases |b| - j
  {
    hide Rewrite, OccursAt;
    RewriteHere(Back(r), a + b, |a| + j);
    RewriteHere(Back(r), b, j);
    OccursShift(a, b, j, r.replacement);
    if j < |b| {
      if OccursAt(b, j, r.replacement) {
        OccurrenceFits(b, j, r.replacement);
        BackShift(r, a, b, j + |r.replacement|);
      } else {
        BackShift(r, a, b, j + 1);
      }
    }
  }

  lemma OccurrenceFits(text: Text, j: nat, p: Text)
    requires OccursAt(text, j, p)
    ensures j + |p| <= |text|
  {
  }

  /** In a text that holds no replacement yet, the reverse pass restores what the pass changed. */
  lemma {:induction false} Undo(r: Rule, text: Text, i: nat)
    requires r.pattern != [] && Unmixed(r.replacement, r.replacement) && i <= |text|
    requires forall k :: 0 <= k <= |text| ==> !OccursAt(text, k, r.replacement)
    ensures Rewrite(Back(r), Rewrite(r, text, i), 0) == text[i..]
    decreases |text| - i
  {
    hide Unmixed, Rewrite;
    NonEmpty(r.replacement, r.replacement);
    RewriteHere(r, text, i);
    var whole := Rewrite(r, text, i);
    RewriteHere(Back(r), whole, 0);
    if i < |text| {
      if Active(r.blocks, text, i, r.pattern) {
        var next := i + |r.pattern|;
        assert text[i..] == text[i..next] + text[next..];
        hide OccursAt;
        OccursInFront(r.replacement, Rewrite(r, text, next));
        BackShift(r, r.replacement, Rewrite(r, text, next), 0);
        Undo(r, text, next);
      } else {
        hide OccursAt;
        if OccursAt(whole, 0, r.replacement) {
          WasThere(r, text, i, r.replacement);
        }
        BackShift(r, [text[i]], Rewrite(r, text, i + 1), 0);
        Undo(r, text, i + 1);
        assert text[i..] == [text[i]] + text[i + 1..];
      }
    }
  }
}
