/**
 What instruction migration does, word by word: a text is cut into maximal words and the
 single characters between them, and only words that start with an old prefix, and the old
 command between a backtick and a space, are renamed.
 */
module InstructionWords {
  import opened Instructions
  import opened InstructionMigration

  // ----- cutting a text into words and the characters between them -----

  predicate IsWord(word: char -> bool, w: Text) {
    w != [] && forall i :: 0 <= i < |w| ==> word(w[i])
  }

  predicate IsGap(word: char -> bool, w: Text) {
    |w| == 1 && !word(w[0])
  }

  function WordEnd(word: char -> bool, text: Text): (k: nat)
    ensures k <= |text| && (forall i :: 0 <= i < k ==> word(text[i])) && (k < |text| ==> !word(text[k]))
  {
    if text == [] || !word(text[0]) then 0 else 1 + WordEnd(word, text[1..])
  }

  function Pieces(word: char -> bool, text: Text): seq<Text>
    decreases |text|
  {
    if text == [] then []
    else
      var k := if word(text[0]) then WordEnd(word, text) else 1;
      [text[..k]] + Pieces(word, text[k..])
  }

  function Concat(pieces: seq<Text>): Text {
    if pieces == [] then [] else pieces[0] + Concat(pieces[1..])
  }

  /** Words and gaps, and no word next to another: each word is a maximal one. */
  ghost predicate Regular(word: char -> bool, pieces: seq<Text>) {
    && (forall k :: 0 <= k < |pieces| ==> IsWord(word, pieces[k]) || IsGap(word, pieces[k]))
    && (forall k :: 0 < k < |pieces| ==> IsGap(word, pieces[k - 1]) || IsGap(word, pieces[k]))
  }

  lemma RegularTail(word: char -> bool, pieces: seq<Text>)
    requires Regular(word, pieces) && pieces != []
    ensures Regular(word, pieces[1..])
    ensures IsWord(word, pieces[0]) && |pieces| > 1 ==> IsGap(word, pieces[1])
  {
    var rest := pieces[1..];
    forall k | 0 < k < |rest|
      ensures IsGap(word, rest[k - 1]) || IsGap(word, rest[k])
    {
      assert rest[k - 1] == pieces[k] && rest[k] == pieces[k + 1];
    }
  }

  lemma RegularCons(word: char -> bool, w: Text, rest: seq<Text>)
    requires Regular(word, rest) && (IsWord(word, w) || IsGap(word, w))
    requires IsWord(word, w) && rest != [] ==> IsGap(word, rest[0])
    ensures Regular(word, [w] + rest)
  {
    var pieces := [w] + rest;
    forall k | 0 < k < |pieces|
      ensures IsGap(word, pieces[k - 1]) || IsGap(word, pieces[k])
    {
      assert pieces[k] == rest[k - 1];
      assert k > 1 ==> pieces[k - 1] == rest[k - 2];
    }
  }

  /** A text is the concatenation of its pieces, which are regular. */
  lemma {:induction false} PiecesOfText(word: char -> bool, text: Text)
    ensures Concat(Pieces(word, text)) == text && Regular(word, Pieces(word, text))
    ensures text != [] ==> Pieces(word, text) != [] && Pieces(word, text)[0][..1] == text[..1]
    decreases |text|
  {
    if text != [] {
      var k := if word(text[0]) then WordEnd(word, text) else 1;
      PiecesOfText(word, text[k..]);
      assert text == text[..k] + text[k..];
      RegularCons(word, text[..k], Pieces(word, text[k..]));
    }
  }

  /** There is one way only to cut a text. */
  lemma {:induction false} CutIsUnique(word: char -> bool, pieces: seq<Text>)
    requires Regular(word, pieces)
    ensures Pieces(word, Concat(pieces)) == pieces
  {
    if pieces != [] {
      RegularTail(word, pieces);
      CutIsUnique(word, pieces[1..]);
      var w, rest := pieces[0], Concat(pieces[1..]);
      var text := w + rest;
      assert text[0] == w[0];
      if IsWord(word, w) {
        assert |pieces| > 1 ==> rest[0] == pieces[1][0];
        assert forall i :: 0 <= i < |w| ==> text[i] == w[i];
        assert |w| < |text| ==> text[|w|] == rest[0];
        assert WordEnd(word, text) == |w|;
      }
      assert text[..|w|] == w && text[|w|..] == rest;
    }
  }

  // ----- a pass that renames prefixes of words -----

  function RenamePrefix(r: Rule, w: Text): Text {
    if r.pattern <= w then r.replacement + w[|r.pattern|..] else w
  }

  function RenamePrefixes(r: Rule, pieces: seq<Text>): (renamed: seq<Text>)
    ensures |renamed| == |pieces| && forall k :: 0 <= k < |pieces| ==> renamed[k] == RenamePrefix(r, pieces[k])
  {
    seq(|pieces|, k requires 0 <= k < |pieces| => RenamePrefix(r, pieces[k]))
  }

  /** Pattern and replacement are made of the characters that block. */
  ghost predicate WordRule(r: Rule) {
    IsWord(r.blocks, r.pattern) && IsWord(r.blocks, r.replacement)
  }

  lemma RenamePrefixKeepsKind(r: Rule, w: Text)
    requires WordRule(r)
    ensures IsWord(r.blocks, w) ==> IsWord(r.blocks, RenamePrefix(r, w))
    ensures IsGap(r.blocks, w) ==> RenamePrefix(r, w) == w
  {
    assert r.blocks(r.pattern[0]);
  }

  lemma RenamePrefixesRegular(r: Rule, pieces: seq<Text>)
    requires WordRule(r) && Regular(r.blocks, pieces)
    ensures Regular(r.blocks, RenamePrefixes(r, pieces))
  {
    var renamed := RenamePrefixes(r, pieces);
    forall k | 0 <= k < |pieces|
      ensures IsWord(r.blocks, pieces[k]) ==> IsWord(r.blocks, renamed[k])
      ensures IsGap(r.blocks, pieces[k]) ==> IsGap(r.blocks, renamed[k])
    {
      RenamePrefixKeepsKind(r, pieces[k]);
    }
    forall k | 0 < k < |renamed|
      ensures IsGap(r.blocks, renamed[k - 1]) || IsGap(r.blocks, renamed[k])
    {
      assert IsGap(r.blocks, pieces[k - 1]) || IsGap(r.blocks, pieces[k]);
    }
  }

  /** `front` may be followed by these pieces without joining two words. */
  ghost predicate Fresh(word: char -> bool, front: Text, pieces: seq<Text>) {
    pieces != [] && IsWord(word, pieces[0]) && front != [] ==> !word(front[|front| - 1])
  }

  lemma OccurrenceAt(text: Text, i: nat, p: Text)
    requires OccursAt(text, i, p)
    ensures i + |p| <= |text| && forall k :: 0 <= k < |p| ==> text[i + k] == p[k]
  {
    var found := text[i..i + |p|];
    assert forall k :: 0 <= k < |found| ==> found[k] == text[i + k];
  }

  /** An occurrence at the start of a word lies within the word. */
  lemma OccurrenceInWord(r: Rule, front: Text, w: Text, rest: Text)
    requires WordRule(r) && OccursAt(front + w + rest, |front|, r.pattern)
    requires rest != [] ==> !r.blocks(rest[0])
    ensures r.pattern <= w
  {
    var text, p := front + w + rest, r.pattern;
    OccurrenceAt(text, |front|, p);
    assert |w| < |w + rest| ==> text[|front| + |w|] == rest[0];
    assert |p| <= |w|;
    assert forall k :: 0 <= k < |p| ==> w[k] == text[|front| + k];
  }

  /** A word that does not start with the pattern holds no active occurrence. */
  lemma NotInWord(r: Rule, front: Text, w: Text, rest: Text)
    requires WordRule(r) && IsWord(r.blocks, w) && !(r.pattern <= w)
    requires rest != [] ==> !r.blocks(rest[0])
    ensures forall k :: |front| <= k < |front| + |w| ==> !Active(r.blocks, front + w + rest, k, r.pattern)
  {
    hide OccursAt, WordRule;
    BlockedInWord(r, front, w, rest, 1);
    if OccursAt(front + w + rest, |front|, r.pattern) {
      OccurrenceInWord(r, front, w, rest);
    }
  }

  lemma BlockedInWord(r: Rule, front: Text, w: Text, rest: Text, m: nat)
    requires IsWord(r.blocks, w) && 0 < m
    ensures forall k :: |front| + m <= k < |front| + |w| ==> !Active(r.blocks, front + w + rest, k, r.pattern)
  {
    var text := front + w + rest;
    forall k | |front| + m <= k < |front| + |w|
      ensures !Active(r.blocks, text, k, r.pattern)
    {
      assert text[k - 1] == w[k - 1 - |front|];
    }
  }

  /** Rewriting over a word that starts with the pattern. */
  lemma {:induction false} PassOverOldWord(r: Rule, front: Text, w: Text, rest: Text)
    requires r.pattern != [] && r.pattern <= w && IsWord(r.blocks, w)
    requires front != [] ==> !r.blocks(front[|front| - 1])
    ensures var text := front + w + rest;
            Rewrite(r, text, |front|) == r.replacement + w[|r.pattern|..] + Rewrite(r, text, |front| + |w|)
  {
    var text := front + w + rest;
    var i, m := |front|, |r.pattern|;
    PatternInFront(r, front, w, rest);
    BlockedInWord(r, front, w, rest, m);
    hide Rewrite, OccursAt, IsWord, Blocked, Active;
    ReplaceThenKeep(r, text, i, i + |w|);
    assert text[i + m..i + |w|] == w[m..];
  }

  /** One replacement, and then a stretch with nothing to replace. */
  lemma {:induction false} ReplaceThenKeep(r: Rule, text: Text, i: nat, e: nat)
    requires r.pattern != [] && i + |r.pattern| <= e <= |text| && Active(r.blocks, text, i, r.pattern)
    requires forall k :: i + |r.pattern| <= k < e ==> !Active(r.blocks, text, k, r.pattern)
    ensures Rewrite(r, text, i) == r.replacement + text[i + |r.pattern|..e] + Rewrite(r, text, e)
  {
    hide Rewrite, Active;
    RewriteHere(r, text, i);
    RewriteQuietStretch(r, text, i + |r.pattern|, e);
    Together(r.replacement, text[i + |r.pattern|..e], Rewrite(r, text, e));
  }

  lemma Together(a: Text, b: Text, c: Text)
    ensures a + (b + c) == a + b + c
  {
  }

  /** Rewriting over one word. */
  lemma {:induction false} PassOverWord(r: Rule, front: Text, w: Text, rest: Text)
    requires WordRule(r) && IsWord(r.blocks, w)
    requires front != [] ==> !r.blocks(front[|front| - 1])
    requires rest != [] ==> !r.blocks(rest[0])
    ensures var text := front + w + rest;
            Rewrite(r, text, |front|) == RenamePrefix(r, w) + Rewrite(r, text, |front| + |w|)
  {
    RuleHasPattern(r);
    hide Rewrite, OccursAt, IsWord, WordRule;
    if r.pattern <= w {
      PassOverOldWord(r, front, w, rest);
    } else {
      NotInWord(r, front, w, rest);
      RewriteQuietStretch(r, front + w + rest, |front|, |front| + |w|);
      assert (front + w + rest)[|front|..|front| + |w|] == w;
    }
  }

  lemma PatternInFront(r: Rule, front: Text, w: Text, rest: Text)
    requires r.pattern != [] && r.pattern <= w
    requires front != [] ==> !r.blocks(front[|front| - 1])
    ensures Active(r.blocks, front + w + rest, |front|, r.pattern)
  {
    var text := front + w + rest;
    var m := |r.pattern|;
    assert text[|front|..|front| + m] == w[..m] == r.pattern;
  }

  /** Rewriting over one character between words. */
  lemma {:induction false} PassOverGap(r: Rule, front: Text, w: Text, rest: Text)
    requires WordRule(r) && IsGap(r.blocks, w)
    ensures var text := front + w + rest;
            Rewrite(r, text, |front|) == w + Rewrite(r, text, |front| + 1)
  {
    hide Rewrite;
    var text := front + w + rest;
    assert text[|front|] == w[0];
    RewriteHere(r, text, |front|);
  }

  /** One piece of a text that starts with `front`, and the text that is left to rewrite. */
  lemma {:induction false} PassOverPiece(r: Rule, front: Text, pieces: seq<Text>)
    requires WordRule(r) && Regular(r.blocks, pieces) && Fresh(r.blocks, front, pieces) && pieces != []
    ensures r.pattern != []
    ensures var w := pieces[0];
            Rewrite(r, front + Concat(pieces), |front|) ==
            RenamePrefix(r, w) + Rewrite(r, (front + w) + Concat(pieces[1..]), |front + w|)
    ensures Regular(r.blocks, pieces[1..]) && Fresh(r.blocks, front + pieces[0], pieces[1..])
  {
    hide Rewrite, RenamePrefix;
    var w, rest := pieces[0], pieces[1..];
    var tail := Concat(rest);
    RegularTail(r.blocks, pieces);
    assert rest != [] ==> tail[0] == rest[0][0];
    assert front + Concat(pieces) == front + w + tail;
    RenamePrefixKeepsKind(r, w);
    if IsWord(r.blocks, w) {
      PassOverWord(r, front, w, tail);
    } else {
      PassOverGap(r, front, w, tail);
      assert (front + w)[|front + w| - 1] == w[0];
    }
  }

  lemma {:induction false} PassFrom(r: Rule, front: Text, pieces: seq<Text>)
    requires WordRule(r) && Regular(r.blocks, pieces) && Fresh(r.blocks, front, pieces)
    ensures r.pattern != []
    ensures Rewrite(r, front + Concat(pieces), |front|) == Concat(RenamePrefixes(r, pieces))
    decreases |pieces|
  {
    RuleHasPattern(r);
    hide Rewrite, WordRule, Regular, Fresh, RenamePrefix;
    if pieces == [] {
      RewriteHere(r, front + Concat(pieces), |front|);
    } else {
      PassOverPiece(r, front, pieces);
      PassFrom(r, front + pieces[0], pieces[1..]);
      assert RenamePrefixes(r, pieces)[1..] == RenamePrefixes(r, pieces[1..]);
    }
  }

  lemma RuleHasPattern(r: Rule)
    requires WordRule(r)
    ensures r.pattern != []
  {
  }

  // ----- the pass that renames the command -----

  const BARE_OLD := "mempalace"
  const BARE_NEW := "agentpalace"

  predicate CommandHere(pieces: seq<Text>) {
    |pieces| >= 3 && pieces[0] == "`" && pieces[1] == BARE_OLD && pieces[2] == " "
  }

  function RenameCommands(pieces: seq<Text>): (renamed: seq<Text>)
    ensures |renamed| == |pieces|
  {
    if pieces == [] then []
    else if CommandHere(pieces) then ["`", BARE_NEW, " "] + RenameCommands(pieces[3..])
    else [pieces[0]] + RenameCommands(pieces[1..])
  }

  /** The word at `k` is the old command, between a backtick and a space. */
  predicate IsCommand(pieces: seq<Text>, k: int) {
    && 0 < k < |pieces| - 1
    && pieces[k - 1] == "`" && pieces[k] == BARE_OLD && pieces[k + 1] == " "
  }

  lemma {:induction false} CommandsAt(pieces: seq<Text>, k: nat)
    requires k < |pieces|
    ensures RenameCommands(pieces)[k] == if IsCommand(pieces, k) then BARE_NEW else pieces[k]
    decreases |pieces|
  {
    if CommandHere(pieces) {
      if k >= 3 {
        CommandsAt(pieces[3..], k - 3);
      }
    } else if k > 0 {
      CommandsAt(pieces[1..], k - 1);
    }
  }

  /** What the theorem needs to know of the character table. */
  ghost predicate LettersOk(alnum: char -> bool) {
    && (forall c :: 'a' <= c <= 'z' || 'A' <= c <= 'Z' ==> alnum(c))
    && !alnum('`') && !alnum(' ')
  }

  /** The first piece of a text and the pieces of what is left. */
  lemma FirstPiece(word: char -> bool, w: Text, rest: Text)
    requires IsGap(word, w) || (IsWord(word, w) && rest != [] && !word(rest[0]))
    ensures Pieces(word, w + rest) == [w] + Pieces(word, rest)
  {
    var text := w + rest;
    assert text[0] == w[0];
    if IsWord(word, w) {
      assert forall i :: 0 <= i < |w| ==> text[i] == w[i];
      assert text[|w|] == rest[0];
      assert WordEnd(word, text) == |w|;
    }
    assert text[..|w|] == w && text[|w|..] == rest;
  }

  /** An occurrence of the command is the three pieces, and the other way round. */
  lemma {:induction false} CommandIsPieces(alnum: char -> bool, pieces: seq<Text>)
    requires LettersOk(alnum) && Regular(Word(alnum), pieces)
    ensures OLD_COMMAND <= Concat(pieces) <==> CommandHere(pieces)
  {
    hide LettersOk, Regular;
    if CommandHere(pieces) {
      CommandText(pieces);
    }
    if OLD_COMMAND <= Concat(pieces) {
      var rest := Concat(pieces)[|OLD_COMMAND|..];
      assert Concat(pieces) == OLD_COMMAND + rest;
      CutIsUnique(Word(alnum), pieces);
      CommandPieces(alnum, rest);
    }
  }

  lemma {:induction false} CommandText(pieces: seq<Text>)
    requires CommandHere(pieces)
    ensures Concat(pieces) == OLD_COMMAND + Concat(pieces[3..])
  {
    var a, b, c := pieces[1..], pieces[2..], pieces[3..];
    assert a[1..] == b && b[1..] == c;
    assert Concat(b) == " " + Concat(c);
    assert Concat(a) == BARE_OLD + Concat(b);
    assert "`" + (BARE_OLD + (" " + Concat(c))) == OLD_COMMAND + Concat(c);
  }

  lemma {:induction false} CommandPieces(alnum: char -> bool, rest: Text)
    requires LettersOk(alnum)
    ensures CommandHere(Pieces(Word(alnum), OLD_COMMAND + rest))
  {
    hide Pieces;
    var word := Word(alnum);
    assert forall i :: 0 <= i < |BARE_OLD| ==> 'a' <= BARE_OLD[i] <= 'z';
    assert IsWord(word, BARE_OLD) && IsGap(word, "`") && IsGap(word, " ");
    FirstPiece(word, " ", rest);
    FirstPiece(word, BARE_OLD, " " + rest);
    FirstPiece(word, "`", BARE_OLD + (" " + rest));
    assert "`" + (BARE_OLD + (" " + rest)) == OLD_COMMAND + rest;
  }

  lemma CommandAtFront(front: Text, text: Text)
    ensures Active(Anywhere(), front + text, |front|, OLD_COMMAND) <==> OLD_COMMAND <= text
  {
    OccursShift(front, text, 0, OLD_COMMAND);
  }

  /** No command starts inside a word. */
  lemma NoCommandInWord(alnum: char -> bool, front: Text, w: Text, rest: Text)
    requires LettersOk(alnum) && (IsWord(Word(alnum), w) || IsGap(Word(alnum), w))
    ensures forall k :: |front| < k < |front| + |w| ==> !Active(Anywhere(), front + (w + rest), k, OLD_COMMAND)
  {
    var text := front + (w + rest);
    forall k | |front| < k < |front| + |w|
      ensures !OccursAt(text, k, OLD_COMMAND)
    {
      assert text[k] == w[k - |front|];
      NotStarting(text, k, OLD_COMMAND);
    }
  }

  lemma NotStarting(text: Text, k: nat, p: Text)
    requires p != [] && k < |text| && text[k] != p[0]
    ensures !OccursAt(text, k, p)
  {
  }

  /** A piece that starts no command is kept. */
  lemma {:induction false} KeepPiece(alnum: char -> bool, front: Text, w: Text, rest: Text)
    requires LettersOk(alnum) && (IsWord(Word(alnum), w) || IsGap(Word(alnum), w))
    requires !(OLD_COMMAND <= w + rest)
    ensures Rewrite(CommandRule(), front + (w + rest), |front|) == w + Rewrite(CommandRule(), (front + w) + rest, |front + w|)
  {
    var text := front + (w + rest);
    CommandAtFront(front, w + rest);
    NoCommandInWord(alnum, front, w, rest);
    hide Rewrite, LettersOk, IsWord, IsGap, OccursAt;
    RewriteQuietStretch(CommandRule(), text, |front|, |front| + |w|);
    assert text[|front|..|front| + |w|] == w;
    assert text == (front + w) + rest;
  }

  /** The three pieces of a command are replaced by the new ones. */
  lemma {:induction false} ReplaceCommand(front: Text, rest: Text)
    ensures Rewrite(CommandRule(), front + (OLD_COMMAND + rest), |front|) ==
            NEW_COMMAND + Rewrite(CommandRule(), (front + OLD_COMMAND) + rest, |front + OLD_COMMAND|)
  {
    hide Rewrite, OccursAt;
    CommandAtFront(front, OLD_COMMAND + rest);
    RewriteHere(CommandRule(), front + (OLD_COMMAND + rest), |front|);
    assert front + (OLD_COMMAND + rest) == (front + OLD_COMMAND) + rest;
  }

  lemma {:induction false} CommandPassFrom(alnum: char -> bool, front: Text, pieces: seq<Text>)
    requires LettersOk(alnum) && Regular(Word(alnum), pieces)
    ensures Rewrite(CommandRule(), front + Concat(pieces), |front|) == Concat(RenameCommands(pieces))
    decreases |pieces|
  {
    hide Rewrite, LettersOk, Regular, IsWord, IsGap, OccursAt;
    if pieces == [] {
      RewriteHere(CommandRule(), front + Concat(pieces), |front|);
    } else {
      CommandIsPieces(alnum, pieces);
      RegularTail(Word(alnum), pieces);
      if CommandHere(pieces) {
        CommandText(pieces);
        NewCommandText(pieces);
        RegularTail(Word(alnum), pieces[1..]);
        RegularTail(Word(alnum), pieces[1..][1..]);
        assert pieces[1..][1..][1..] == pieces[3..];
        ReplaceCommand(front, Concat(pieces[3..]));
        CommandPassFrom(alnum, front + OLD_COMMAND, pieces[3..]);
      } else {
        FirstKind(Word(alnum), pieces);
        KeepPiece(alnum, front, pieces[0], Concat(pieces[1..]));
        CommandPassFrom(alnum, front + pieces[0], pieces[1..]);
      }
    }
  }

  lemma FirstKind(word: char -> bool, pieces: seq<Text>)
    requires Regular(word, pieces) && pieces != []
    ensures pieces[0] != [] && (IsWord(word, pieces[0]) || IsGap(word, pieces[0]))
  {
  }

  lemma {:induction false} NewCommandText(pieces: seq<Text>)
    requires CommandHere(pieces)
    ensures Concat(RenameCommands(pieces)) == NEW_COMMAND + Concat(RenameCommands(pieces[3..]))
  {
    var rest := RenameCommands(pieces[3..]);
    var all := ["`", BARE_NEW, " "] + rest;
    var a, b := [BARE_NEW, " "] + rest, [" "] + rest;
    assert all[1..] == a && a[1..] == b && b[1..] == rest;
    assert Concat(b) == " " + Concat(rest);
    assert Concat(a) == BARE_NEW + Concat(b);
    assert "`" + (BARE_NEW + (" " + Concat(rest))) == NEW_COMMAND + Concat(rest);
  }

  lemma {:induction false} RenameCommandsRegular(alnum: char -> bool, pieces: seq<Text>)
    requires LettersOk(alnum) && Regular(Word(alnum), pieces)
    ensures Regular(Word(alnum), RenameCommands(pieces))
  {
    var word, renamed := Word(alnum), RenameCommands(pieces);
    assert IsWord(word, BARE_OLD) && IsWord(word, BARE_NEW) by {
      assert forall i :: 0 <= i < |BARE_OLD| ==> 'a' <= BARE_OLD[i] <= 'z';
      assert forall i :: 0 <= i < |BARE_NEW| ==> 'a' <= BARE_NEW[i] <= 'z';
    }
    forall k | 0 <= k < |pieces|
      ensures IsWord(word, pieces[k]) == IsWord(word, renamed[k]) && IsGap(word, pieces[k]) == IsGap(word, renamed[k])
    {
      CommandsAt(pieces, k);
    }
    forall k | 0 < k < |renamed|
      ensures IsGap(word, renamed[k - 1]) || IsGap(word, renamed[k])
    {
      assert IsGap(word, pieces[k - 1]) || IsGap(word, pieces[k]);
    }
  }

  // ----- the whole migration -----

  /** What becomes of the piece at `k`. */
  function NewPiece(pieces: seq<Text>, k: nat): Text
    requires k < |pieces|
  {
    var w := pieces[k];
    if OLD_TOOL <= w then NEW_TOOL + w[|OLD_TOOL|..]
    else if OLD_ENV <= w then NEW_ENV + w[|OLD_ENV|..]
    else if IsCommand(pieces, k) then BARE_NEW
    else w
  }

  lemma NamesAreWords(alnum: char -> bool)
    requires LettersOk(alnum)
    ensures WordRule(ToolRule(alnum)) && WordRule(EnvRule(alnum))
  {
    assert forall i :: 0 <= i < |OLD_TOOL| ==> 'a' <= OLD_TOOL[i] <= 'z' || OLD_TOOL[i] == '_';
    assert forall i :: 0 <= i < |NEW_TOOL| ==> 'a' <= NEW_TOOL[i] <= 'z' || NEW_TOOL[i] == '_';
    assert forall i :: 0 <= i < |OLD_ENV| ==> 'A' <= OLD_ENV[i] <= 'Z' || OLD_ENV[i] == '_';
    assert forall i :: 0 <= i < |NEW_ENV| ==> 'A' <= NEW_ENV[i] <= 'Z' || NEW_ENV[i] == '_';
  }

  /** Words renamed by one pass are left alone by the later ones. */
  lemma {:induction false} PassesOnPiece(alnum: char -> bool, pieces: seq<Text>, k: nat)
    requires k < |pieces|
    ensures RenameCommands(RenamePrefixes(EnvRule(alnum), RenamePrefixes(ToolRule(alnum), pieces)))[k] == NewPiece(pieces, k)
  {
    var tools := RenamePrefixes(ToolRule(alnum), pieces);
    var envs := RenamePrefixes(EnvRule(alnum), tools);
    CommandsAt(envs, k);
    PrefixesOnPiece(alnum, pieces[k]);
    if k > 0 {
      PrefixesOnPiece(alnum, pieces[k - 1]);
    }
    if k < |pieces| - 1 {
      PrefixesOnPiece(alnum, pieces[k + 1]);
    }
  }

  /** The two prefix passes on one piece, and that they neither make nor unmake a part of a command. */
  lemma PrefixesOnPiece(alnum: char -> bool, w: Text)
    ensures var x := RenamePrefix(EnvRule(alnum), RenamePrefix(ToolRule(alnum), w));
            && x == (if OLD_TOOL <= w then NEW_TOOL + w[|OLD_TOOL|..] else if OLD_ENV <= w then NEW_ENV + w[|OLD_ENV|..] else w)
            && (x == "`" <==> w == "`") && (x == " " <==> w == " ") && (x == BARE_OLD <==> w == BARE_OLD)
  {
    if OLD_TOOL <= w {
      assert (NEW_TOOL + w[|OLD_TOOL|..])[0] == 'a' && OLD_ENV[0] == 'M';
    }
  }

  /**
   Migration renames words and does nothing else: the words and characters of the result are
   those of the text, in order, except that a word that starts with an old prefix starts with
   the new one, and the old command between a backtick and a space is the new one. A name
   such as `wing_mempalace_x` is one word and is kept as it is.
   */
  lemma {:induction false} WordsRenamed(alnum: char -> bool, text: Text)
    requires LettersOk(alnum)
    ensures var was, now := Pieces(Word(alnum), text), Pieces(Word(alnum), Migrate(alnum, text));
            && Concat(was) == text && Concat(now) == Migrate(alnum, text)
            && |now| == |was|
            && forall k :: 0 <= k < |was| ==> now[k] == NewPiece(was, k)
  {
    hide Rewrite, LettersOk, Regular, Pieces, Concat, RenamePrefix, RenameCommands, NewPiece, WordRule;
    var word, was := Word(alnum), Pieces(Word(alnum), text);
    NamesAreWords(alnum);
    PiecesOfText(word, text);
    StartsFresh(word, was);
    PassFrom(ToolRule(alnum), [], was);
    var tools := RenamePrefixes(ToolRule(alnum), was);
    RenamePrefixesRegular(ToolRule(alnum), was);
    StartsFresh(word, tools);
    PassFrom(EnvRule(alnum), [], tools);
    var envs := RenamePrefixes(EnvRule(alnum), tools);
    RenamePrefixesRegular(EnvRule(alnum), tools);
    CommandPassFrom(alnum, [], envs);
    RenameCommandsRegular(alnum, envs);
    CutIsUnique(word, RenameCommands(envs));
    assert [] + Concat(was) == Concat(was) && [] + Concat(tools) == Concat(tools) && [] + Concat(envs) == Concat(envs);
    forall k | 0 <= k < |was|
      ensures RenameCommands(envs)[k] == NewPiece(was, k)
    {
      PassesOnPiece(alnum, was, k);
    }
  }

  lemma StartsFresh(word: char -> bool, pieces: seq<Text>)
    ensures Fresh(word, [], pieces)
  {
  }
}
