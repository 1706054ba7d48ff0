/**
 The three rewriting passes over an instruction file, and what they guarantee together.
 */
module InstructionMigration {
  import opened Instructions

  const OLD_TOOL := "mempalace_"
  const NEW_TOOL := "agentpalace_"
  const OLD_ENV := "MEMPALACE_"
  const NEW_ENV := "AGENTPALACE_"
  const OLD_COMMAND := "`mempalace "
  const NEW_COMMAND := "`agentpalace "

  /** A word character: alphanumeric in Unicode's sense, or an underscore. */
  function Word(alnum: char -> bool): char -> bool {
    c => alnum(c) || c == '_'
  }

  function Anywhere(): char -> bool {
    c => false
  }

  function ToolRule(alnum: char -> bool): Rule {
    Rule(Word(alnum), OLD_TOOL, NEW_TOOL)
  }

  function EnvRule(alnum: char -> bool): Rule {
    Rule(Word(alnum), OLD_ENV, NEW_ENV)
  }

  function CommandRule(): Rule {
    Rule(Anywhere(), OLD_COMMAND, NEW_COMMAND)
  }

  /** `migrate_instructions`. */
  function Migrate(alnum: char -> bool, text: Text): Text {
    Rewrite(CommandRule(), Rewrite(EnvRule(alnum), Rewrite(ToolRule(alnum), text, 0), 0), 0)
  }

  method MigrateInstructions(alnum: char -> bool, text: Text) returns (migrated: Text)
    ensures migrated == Migrate(alnum, text)
  {
    hide Rewrite, Unmixed;
    ToolAlone();
    EnvAlone();
    CommandAlone();
    var tools := RewriteLoop(ToolRule(alnum), text);
    var envs := RewriteLoop(EnvRule(alnum), tools);
    migrated := RewriteLoop(CommandRule(), envs);
  }

  // ----- the six names never overlap -----

  lemma ToolAlone()
    ensures Unmixed(OLD_TOOL, OLD_TOOL)
  {
    forall k | 0 < k < |OLD_TOOL|
      ensures Differs(OLD_TOOL, k, OLD_TOOL)
    {
      if k == 2 {
        assert OLD_TOOL[k + 1] != OLD_TOOL[1];
      } else {
        assert OLD_TOOL[k + 0] != OLD_TOOL[0];
      }
    }
  }

  lemma EnvAlone()
    ensures Unmixed(OLD_ENV, OLD_ENV)
  {
    forall k | 0 < k < |OLD_ENV|
      ensures Differs(OLD_ENV, k, OLD_ENV)
    {
      if k == 2 {
        assert OLD_ENV[k + 1] != OLD_ENV[1];
      } else {
        assert OLD_ENV[k + 0] != OLD_ENV[0];
      }
    }
  }

  lemma CommandAlone()
    ensures Unmixed(OLD_COMMAND, OLD_COMMAND)
  {
    forall k | 0 < k < |OLD_COMMAND|
      ensures Differs(OLD_COMMAND, k, OLD_COMMAND)
    {
      assert OLD_COMMAND[k + 0] != OLD_COMMAND[0];
    }
  }

  /** Patterns whose first characters do not occur in the other never overlap. */
  lemma StrangersUnmixed(p: Text, q: Text)
    requires p != [] && q != [] && p[0] !in q && q[0] !in p
    ensures Unmixed(p, q)
  {
    forall k | 0 <= k < |p|
      ensures Differs(p, k, q)
    {
      assert p[k + 0] in p;
      assert p[k + 0] != q[0];
    }
    forall k | 0 <= k < |q|
      ensures Differs(q, k, p)
    {
      assert q[k + 0] in q;
      assert q[k + 0] != p[0];
    }
  }

  lemma ToolFromNewTool()
    ensures Unmixed(OLD_TOOL, NEW_TOOL)
  {
    forall k | 0 <= k < |OLD_TOOL|
      ensures Differs(OLD_TOOL, k, NEW_TOOL)
    {
      if k == 4 || k == 6 {
        assert OLD_TOOL[k + 1] != NEW_TOOL[1];
      } else {
        assert OLD_TOOL[k + 0] != NEW_TOOL[0];
      }
    }
    forall k | 0 <= k < |NEW_TOOL|
      ensures Differs(NEW_TOOL, k, OLD_TOOL)
    {
      assert NEW_TOOL[k + 0] != OLD_TOOL[0];
    }
  }

  lemma EnvFromNewEnv()
    ensures Unmixed(OLD_ENV, NEW_ENV)
  {
    forall k | 0 <= k < |OLD_ENV|
      ensures Differs(OLD_ENV, k, NEW_ENV)
    {
      if k == 4 || k == 6 {
        assert OLD_ENV[k + 1] != NEW_ENV[1];
      } else {
        assert OLD_ENV[k + 0] != NEW_ENV[0];
      }
    }
    forall k | 0 <= k < |NEW_ENV|
      ensures Differs(NEW_ENV, k, OLD_ENV)
    {
      assert NEW_ENV[k + 0] != OLD_ENV[0];
    }
  }

  lemma CommandFromNewCommand()
    ensures Unmixed(OLD_COMMAND, NEW_COMMAND)
  {
    forall k | 0 <= k < |OLD_COMMAND|
      ensures Differs(OLD_COMMAND, k, NEW_COMMAND)
    {
      if k == 0 {
        assert OLD_COMMAND[k + 1] != NEW_COMMAND[1];
      } else {
        assert OLD_COMMAND[k + 0] != NEW_COMMAND[0];
      }
    }
    forall k | 0 <= k < |NEW_COMMAND|
      ensures Differs(NEW_COMMAND, k, OLD_COMMAND)
    {
      if k == 0 {
        assert NEW_COMMAND[k + 1] != OLD_COMMAND[1];
      } else {
        assert NEW_COMMAND[k + 0] != OLD_COMMAND[0];
      }
    }
  }

  lemma ToolFromCommand()
    ensures Unmixed(OLD_TOOL, OLD_COMMAND)
  {
    forall k | 0 <= k < |OLD_TOOL|
      ensures Differs(OLD_TOOL, k, OLD_COMMAND)
    {
      assert OLD_TOOL[k + 0] != OLD_COMMAND[0];
    }
    forall k | 0 <= k < |OLD_COMMAND|
      ensures Differs(OLD_COMMAND, k, OLD_TOOL)
    {
      if k == 1 {
        assert OLD_COMMAND[k + 9] != OLD_TOOL[9];
      } else if k == 3 {
        assert OLD_COMMAND[k + 1] != OLD_TOOL[1];
      } else {
        assert OLD_COMMAND[k + 0] != OLD_TOOL[0];
      }
    }
  }

  lemma ToolFromNewCommand()
    ensures Unmixed(OLD_TOOL, NEW_COMMAND)
  {
    StrangersUnmixed(OLD_TOOL, NEW_COMMAND);
  }

  // ----- nothing is left to migrate -----

  /** What a migrated text no longer holds. */
  ghost predicate Migrated(alnum: char -> bool, text: Text) {
    && Quiet(Word(alnum), text, OLD_TOOL)
    && Quiet(Word(alnum), text, OLD_ENV)
    && Quiet(Anywhere(), text, OLD_COMMAND)
  }

  lemma ToolPassClears(alnum: char -> bool, text: Text)
    ensures Quiet(Word(alnum), Rewrite(ToolRule(alnum), text, 0), OLD_TOOL)
  {
    hide Rewrite, Unmixed, OccursAt;
    ToolFromNewTool();
    PassLeavesQuiet(ToolRule(alnum), Word(alnum), text, OLD_TOOL);
  }

  lemma EnvPassClears(alnum: char -> bool, text: Text)
    requires Quiet(Word(alnum), text, OLD_TOOL)
    ensures Quiet(Word(alnum), Rewrite(EnvRule(alnum), text, 0), OLD_TOOL)
    ensures Quiet(Word(alnum), Rewrite(EnvRule(alnum), text, 0), OLD_ENV)
  {
    hide Rewrite, Unmixed, OccursAt;
    StrangersUnmixed(OLD_TOOL, NEW_ENV);
    PassLeavesQuiet(EnvRule(alnum), Word(alnum), text, OLD_TOOL);
    EnvFromNewEnv();
    PassLeavesQuiet(EnvRule(alnum), Word(alnum), text, OLD_ENV);
  }

  lemma CommandPassClears(alnum: char -> bool, text: Text)
    requires Quiet(Word(alnum), text, OLD_TOOL) && Quiet(Word(alnum), text, OLD_ENV)
    ensures Migrated(alnum, Rewrite(CommandRule(), text, 0))
  {
    hide Rewrite, Unmixed, OccursAt;
    ToolFromNewCommand();
    PassLeavesQuiet(CommandRule(), Word(alnum), text, OLD_TOOL);
    StrangersUnmixed(OLD_ENV, NEW_COMMAND);
    PassLeavesQuiet(CommandRule(), Word(alnum), text, OLD_ENV);
    CommandFromNewCommand();
    PassLeavesQuiet(CommandRule(), Anywhere(), text, OLD_COMMAND);
  }

  /**
   After migration no word starts with an old prefix and no backtick is followed by the old
   command: each pass clears its own pattern and brings back no other.
   */
  lemma MigrationClears(alnum: char -> bool, text: Text)
    ensures Migrated(alnum, Migrate(alnum, text))
  {
    hide Rewrite, Quiet;
    var tools := Rewrite(ToolRule(alnum), text, 0);
    ToolPassClears(alnum, text);
    EnvPassClears(alnum, tools);
    CommandPassClears(alnum, Rewrite(EnvRule(alnum), tools, 0));
  }

  /** A text is left exactly as it is when, and only when, it holds nothing to migrate. */
  lemma KeptExactlyWhenMigrated(alnum: char -> bool, text: Text)
    ensures Migrate(alnum, text) == text <==> Migrated(alnum, text)
  {
    if Migrated(alnum, text) {
      QuietIsKept(ToolRule(alnum), text);
      QuietIsKept(EnvRule(alnum), text);
      QuietIsKept(CommandRule(), text);
    }
    MigrationClears(alnum, text);
  }

  lemma MigrationIsIdempotent(alnum: char -> bool, text: Text)
    ensures Migrate(alnum, Migrate(alnum, text)) == Migrate(alnum, text)
  {
    MigrationClears(alnum, text);
    KeptExactlyWhenMigrated(alnum, Migrate(alnum, text));
  }

  /** An old prefix that is part of a longer name: it follows a word character. */
  ghost predicate Durable(alnum: char -> bool, text: Text, j: nat, p: Text) {
    (p == OLD_TOOL || p == OLD_ENV) && OccursAt(text, j, p) && Blocked(Word(alnum), text, j)
  }

  /** Where a pass puts what stands at `j`, told from how much text is left there. */
  function Place(r: Rule, text: Text, j: nat): nat
    requires r.pattern != []
  {
    var whole, left := |Rewrite(r, text, 0)|, |Rewrite(r, text, j)|;
    if left <= whole then whole - left else 0
  }

  /** Where all three passes together put it. */
  function NewPlace(alnum: char -> bool, text: Text, j: nat): nat {
    var tools := Rewrite(ToolRule(alnum), text, 0);
    var envs := Rewrite(EnvRule(alnum), tools, 0);
    Place(CommandRule(), envs, Place(EnvRule(alnum), tools, Place(ToolRule(alnum), text, j)))
  }

  lemma {:induction false} PassKeepsDurable(alnum: char -> bool, r: Rule, text: Text, j: nat, p: Text)
    requires r == ToolRule(alnum) || r == EnvRule(alnum) || r == CommandRule()
    requires Durable(alnum, text, j, p)
    ensures Durable(alnum, Rewrite(r, text, 0), Place(r, text, j), p)
    ensures Rewrite(r, text, 0)[Place(r, text, j) - 1] == text[j - 1]
  {
    hide Rewrite, Unmixed, OccursAt;
    OldNamesUnmixed(p);
    var d := Survives(r, text, 0, j, p);
    assert d == Place(r, text, j);
    OccurrenceFits(Rewrite(r, text, 0), d, p);
  }

  /**
   Durable names survive: an old prefix after a word character is found again after that
   character, at a place of its own.
   */
  lemma {:induction false} DurableNamesSurvive(alnum: char -> bool, text: Text, j: nat, p: Text)
    requires Durable(alnum, text, j, p)
    ensures Durable(alnum, Migrate(alnum, text), NewPlace(alnum, text, j), p)
    ensures Migrate(alnum, text)[NewPlace(alnum, text, j) - 1] == text[j - 1]
  {
    hide Rewrite, Durable, Place;
    var tools := Rewrite(ToolRule(alnum), text, 0);
    var envs := Rewrite(EnvRule(alnum), tools, 0);
    var j1 := Place(ToolRule(alnum), text, j);
    PassKeepsDurable(alnum, ToolRule(alnum), text, j, p);
    PassKeepsDurable(alnum, EnvRule(alnum), tools, j1, p);
    PassKeepsDurable(alnum, CommandRule(), envs, Place(EnvRule(alnum), tools, j1), p);
  }

  lemma {:induction false} PassKeepsOrder(alnum: char -> bool, r: Rule, text: Text, j: nat, p: Text, k: nat, q: Text)
    requires r == ToolRule(alnum) || r == EnvRule(alnum) || r == CommandRule()
    requires Durable(alnum, text, j, p) && Durable(alnum, text, k, q) && j < k
    ensures Place(r, text, j) < Place(r, text, k)
  {
    hide Rewrite, Unmixed, OccursAt;
    OldNamesUnmixed(p);
    OldNamesUnmixed(q);
    var d := Survives(r, text, 0, j, p);
    var e := Survives(r, text, 0, k, q);
    SurviveApart(r, text, j, k, q);
  }

  /** And two of them keep their order, so none is lost or taken for another. */
  lemma {:induction false} DurableNamesKeepOrder(alnum: char -> bool, text: Text, j: nat, p: Text, k: nat, q: Text)
    requires Durable(alnum, text, j, p) && Durable(alnum, text, k, q) && j < k
    ensures NewPlace(alnum, text, j) < NewPlace(alnum, text, k)
  {
    hide Rewrite, Durable, Place;
    var tools := Rewrite(ToolRule(alnum), text, 0);
    var envs := Rewrite(EnvRule(alnum), tools, 0);
    var j1, k1 := Place(ToolRule(alnum), text, j), Place(ToolRule(alnum), text, k);
    var j2, k2 := Place(EnvRule(alnum), tools, j1), Place(EnvRule(alnum), tools, k1);
    PassKeepsDurable(alnum, ToolRule(alnum), text, j, p);
    PassKeepsDurable(alnum, ToolRule(alnum), text, k, q);
    PassKeepsOrder(alnum, ToolRule(alnum), text, j, p, k, q);
    PassKeepsDurable(alnum, EnvRule(alnum), tools, j1, p);
    PassKeepsDurable(alnum, EnvRule(alnum), tools, k1, q);
    PassKeepsOrder(alnum, EnvRule(alnum), tools, j1, p, k1, q);
    PassKeepsOrder(alnum, CommandRule(), envs, j2, p, k2, q);
  }

  lemma OldNamesUnmixed(p: Text)
    requires p == OLD_TOOL || p == OLD_ENV
    ensures Unmixed(p, OLD_TOOL) && Unmixed(p, OLD_ENV) && Unmixed(p, OLD_COMMAND)
  {
    hide Unmixed;
    if p == OLD_TOOL {
      ToolAlone();
      StrangersUnmixed(OLD_TOOL, OLD_ENV);
      ToolFromCommand();
    } else {
      StrangersUnmixed(OLD_ENV, OLD_TOOL);
      EnvAlone();
      StrangersUnmixed(OLD_ENV, OLD_COMMAND);
    }
  }

  // ----- nothing is lost -----

  ghost predicate Free(text: Text, pattern: Text) {
    forall k :: 0 <= k <= |text| ==> !OccursAt(text, k, pattern)
  }

  lemma NewNamesAlone()
    ensures Unmixed(NEW_TOOL, NEW_TOOL) && Unmixed(NEW_ENV, NEW_ENV) && Unmixed(NEW_COMMAND, NEW_COMMAND)
  {
    forall k | 0 < k < |NEW_TOOL|
      ensures Differs(NEW_TOOL, k, NEW_TOOL)
    {
      if k == 6 || k == 8 {
        assert NEW_TOOL[k + 1] != NEW_TOOL[1];
      } else {
        assert NEW_TOOL[k + 0] != NEW_TOOL[0];
      }
    }
    forall k | 0 < k < |NEW_ENV|
      ensures Differs(NEW_ENV, k, NEW_ENV)
    {
      if k == 6 || k == 8 {
        assert NEW_ENV[k + 1] != NEW_ENV[1];
      } else {
        assert NEW_ENV[k + 0] != NEW_ENV[0];
      }
    }
    forall k | 0 < k < |NEW_COMMAND|
      ensures Differs(NEW_COMMAND, k, NEW_COMMAND)
    {
      assert NEW_COMMAND[k + 0] != NEW_COMMAND[0];
    }
  }

  lemma CommandFromNewTool()
    ensures Unmixed(NEW_COMMAND, NEW_TOOL)
  {
    forall k | 0 <= k < |NEW_TOOL|
      ensures Differs(NEW_TOOL, k, NEW_COMMAND)
    {
      assert NEW_TOOL[k + 0] != NEW_COMMAND[0];
    }
    forall k | 0 <= k < |NEW_COMMAND|
      ensures Differs(NEW_COMMAND, k, NEW_TOOL)
    {
      if k == 1 {
        assert NEW_COMMAND[k + 11] != NEW_TOOL[11];
      } else if k == 7 || k == 9 {
        assert NEW_COMMAND[k + 1] != NEW_TOOL[1];
      } else {
        assert NEW_COMMAND[k + 0] != NEW_TOOL[0];
      }
    }
  }

  /** A pass brings in no name that its replacement cannot overlap. */
  lemma PassKeepsFree(r: Rule, text: Text, p: Text)
    requires r.pattern != [] && r.replacement != [] && p != r.replacement && Unmixed(p, r.replacement)
    requires r.pattern[|r.pattern| - 1] == r.replacement[|r.replacement| - 1]
    requires Free(text, p)
    ensures Free(Rewrite(r, text, 0), p)
  {
    hide Unmixed, Rewrite, OccursAt;
    PassLeavesQuiet(r, Anywhere(), text, p);
    var whole := Rewrite(r, text, 0);
    forall k | 0 <= k <= |whole|
      ensures !OccursAt(whole, k, p)
    {
      assert !Active(Anywhere(), whole, k, p);
    }
  }

  lemma ToolPassKeepsFree(alnum: char -> bool, text: Text)
    requires Free(text, NEW_ENV) && Free(text, NEW_COMMAND)
    ensures Free(Rewrite(ToolRule(alnum), text, 0), NEW_ENV)
    ensures Free(Rewrite(ToolRule(alnum), text, 0), NEW_COMMAND)
  {
    StrangersUnmixed(NEW_ENV, NEW_TOOL);
    CommandFromNewTool();
    assert NEW_ENV[0] != NEW_TOOL[0] && NEW_COMMAND[0] != NEW_TOOL[0];
    assert OLD_TOOL[|OLD_TOOL| - 1] == NEW_TOOL[|NEW_TOOL| - 1];
    hide Unmixed, Rewrite, OccursAt, Free;
    PassKeepsFree(ToolRule(alnum), text, NEW_ENV);
    PassKeepsFree(ToolRule(alnum), text, NEW_COMMAND);
  }

  lemma EnvPassKeepsFree(alnum: char -> bool, text: Text)
    requires Free(text, NEW_COMMAND)
    ensures Free(Rewrite(EnvRule(alnum), text, 0), NEW_COMMAND)
  {
    StrangersUnmixed(NEW_COMMAND, NEW_ENV);
    assert NEW_COMMAND[0] != NEW_ENV[0];
    assert OLD_ENV[|OLD_ENV| - 1] == NEW_ENV[|NEW_ENV| - 1];
    hide Unmixed, Rewrite, OccursAt, Free;
    PassKeepsFree(EnvRule(alnum), text, NEW_COMMAND);
  }

  /**
   Migration loses nothing: a text that holds none of the new names is restored by the
   three reverse passes.
   */
  lemma MigrationCanBeUndone(alnum: char -> bool, text: Text)
    requires Free(text, NEW_TOOL) && Free(text, NEW_ENV) && Free(text, NEW_COMMAND)
    ensures Rewrite(Back(ToolRule(alnum)),
                    Rewrite(Back(EnvRule(alnum)),
                            Rewrite(Back(CommandRule()), Migrate(alnum, text), 0), 0), 0) == text
  {
    ToolPassKeepsFree(alnum, text);
    EnvPassKeepsFree(alnum, Rewrite(ToolRule(alnum), text, 0));
    NewNamesAlone();
    hide Unmixed, Rewrite, OccursAt, Back;
    var tools := Rewrite(ToolRule(alnum), text, 0);
    var envs := Rewrite(EnvRule(alnum), tools, 0);
    Undo(CommandRule(), envs, 0);
    Undo(EnvRule(alnum), tools, 0);
    Undo(ToolRule(alnum), text, 0);
    assert text[0..] == text && tools[0..] == tools && envs[0..] == envs;
  }
}
