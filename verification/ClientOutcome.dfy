/**
 What the client rewriter comes to, told from the document it reads: which registrations are
 refused, and everything a migrated one says.
 */
module ClientOutcome {
  import opened Options
  import opened Json
  import opened EntryMigration
  import opened ClientDocuments
  import PathRemap
  import MigrationPlan
  import FileTree
  import InstructionMigration

  // ----- launchers -----

  lemma {:induction false} BaseNameOf(dir: string, name: string)
    requires dir == [] || dir[|dir| - 1] == '/' || dir[|dir| - 1] == '\\'
    requires '/' !in name && '\\' !in name
    ensures BaseName(dir + name) == name
    decreases |name|
  {
    if name == [] {
      assert dir + name == dir;
    } else {
      assert (dir + name)[..|dir + name| - 1] == dir + name[..|name| - 1];
      BaseNameOf(dir, name[..|name| - 1]);
    }
  }

  /** The launchers that are replaced: six names, in any directory. */
  lemma LaunchersReplaced(dir: string, name: string)
    requires dir == [] || dir[|dir| - 1] == '/' || dir[|dir| - 1] == '\\'
    requires '/' !in name && '\\' !in name
    ensures LegacyCommand(dir + name) <==>
            || name == "mempalace" || name == "mempalace.exe"
            || name == "mempalace-mcp" || name == "mempalace-mcp.exe"
            || name == "mempalace-cli" || name == "mempalace-cli.exe"
  {
    BaseNameOf(dir, name);
  }

  predicate PartAt(s: string, part: string, i: nat) {
    i + |part| <= |s| && s[i..i + |part|] == part
  }

  /** `contains`, told from where the part stands. */
  lemma {:induction false} ContainsExactly(s: string, part: string)
    ensures Contains(s, part) <==> exists i :: PartAt(s, part, i)
  {
    if part <= s {
      assert PartAt(s, part, 0);
    } else if s != [] {
      ContainsExactly(s[1..], part);
      forall i: nat | PartAt(s[1..], part, i)
        ensures PartAt(s, part, i + 1)
      {
        assert s[1..][i..i + |part|] == s[i + 1..i + 1 + |part|];
      }
      forall i: nat | PartAt(s, part, i)
        ensures i > 0 && PartAt(s[1..], part, i - 1)
      {
        assert i > 0 ==> s[1..][i - 1..i - 1 + |part|] == s[i..i + |part|];
      }
    }
  }

  // ----- what a migrated registration says -----

  /** The old arguments behind those that a split launcher implied, all with their paths moved. */
  predicate ArgumentsMoved(m: Migration, command: string, before: seq<Value>, after: seq<Value>) {
    var all := (if Contains(command, "-mcp") then [Text("serve"), Text("--stdio")] else []) + before;
    && |after| == |all|
    && forall i :: 0 <= i < |all| ==> after[i] == if all[i].Text? then Text(m.remap(all[i].s)) else all[i]
  }

  /** The command is the new executable; its arguments follow it in the array, or stand in a field of their own. */
  ghost predicate CommandMoved(m: Migration, before: Fields, after: Fields) {
    if "command" !in before then
      && "url" in before && "command" !in after
      && ("args" in before <==> "args" in after) && ("args" in before ==> after["args"] == before["args"])
    else if before["command"].Array? then
      var items := before["command"].items;
      && items != [] && items[0].Text? && LegacyCommand(items[0].s)
      && "command" in after && after["command"].Array? && after["command"].items != []
      && after["command"].items[0] == Text(m.binary)
      && ArgumentsMoved(m, items[0].s, items[1..], after["command"].items[1..])
      && ("args" in before <==> "args" in after) && ("args" in before ==> after["args"] == before["args"])
    else
      && before["command"].Text? && LegacyCommand(before["command"].s)
      && "command" in after && after["command"] == Text(m.binary)
      && ("args" in before ==> before["args"].Array?)
      && "args" in after && after["args"].Array?
      && ArgumentsMoved(m, before["command"].s, if "args" in before then before["args"].items else [], after["args"].items)
  }

  /** Does this environment get to know the new home? The one that goes with the kind of command does. */
  predicate Selected(before: Fields, key: string) {
    "command" in before && key == if before["command"].Array? then "environment" else "env"
  }

  /** A variable's new value: paths by name are moved, everything else is kept. */
  function MovedVariable(m: Migration, k: string, v: Value): Value {
    if && v.Text?
       && (|| k == "HF_HOME" || k == "MEMPAL_PALACE_PATH"
           || ("MEMPALACE_" <= k && (EndsWith(k[10..], "_DIR") || EndsWith(k[10..], "_PATH"))))
    then Text(m.remap(v.s)) else v
  }

  /** One environment: every variable under its new name, nothing else, and the new home where it belongs. */
  ghost predicate EnvMoved(m: Migration, before: Fields, after: Fields, key: string) {
    if key in before && before[key].Object? then
      var was := before[key].fields;
      && key in after && after[key].Object?
      && var now := after[key].fields;
         && Injective(was)
         && (forall k :: k in was ==> Renamed(k) in now && now[Renamed(k)] == MovedVariable(m, k, was[k]))
         && (forall k :: k in now ==>
               || (exists o :: o in was && Renamed(o) == k)
               || (Selected(before, key) && k == "AGENTPALACE_CONFIG_DIR" && now[k] == Text(m.target)))
         && (Selected(before, key) ==> "AGENTPALACE_CONFIG_DIR" in now)
    else if key in before then !Selected(before, key) && key in after && after[key] == before[key]
    else if Selected(before, key) then
      key in after && after[key] == Object(map["AGENTPALACE_CONFIG_DIR" := Text(m.target)])
    else key !in after
  }

  /** One tool list: every item in its place, with the old tool prefix renamed. */
  ghost predicate ToolsMoved(before: Fields, after: Fields, key: string) {
    && (key in before <==> key in after)
    && (key in before ==>
          if before[key].Array? then
            && after[key].Array? && |after[key].items| == |before[key].items|
            && forall i :: 0 <= i < |before[key].items| ==>
                 var was := before[key].items[i];
                 after[key].items[i] ==
                 if was.Text? && "mempalace_" <= was.s then Text("agentpalace_" + was.s[10..]) else was
          else after[key] == before[key])
  }

  ghost predicate EntryMoved(m: Migration, before: Fields, after: Fields) {
    && CommandMoved(m, before, after)
    && EnvMoved(m, before, after, "env") && EnvMoved(m, before, after, "environment")
    && ToolsMoved(before, after, "enabled_tools") && ToolsMoved(before, after, "disabled_tools")
    && ToolsMoved(before, after, "autoApprove") && ToolsMoved(before, after, "alwaysAllow")
    && SameOutside(before, after,
                   {"command", "args", "env", "environment", "enabled_tools", "disabled_tools", "autoApprove", "alwaysAllow"})
  }

  // ----- the code does that -----

  lemma CommandIsMoved(m: Migration, entry: Fields)
    requires MigrateCommand(m, entry).Some?
    ensures CommandMoved(m, entry, MigrateCommand(m, entry).value)
  {
    hide LegacyCommand, Contains;
  }

  /** The command's part of an entry stays as it is when nothing of it changes. */
  lemma CommandFrame(m: Migration, before: Fields, x: Fields, y: Fields, keys: set<string>)
    requires CommandMoved(m, before, x) && SameOutside(x, y, keys) && "command" !in keys && "args" !in keys
    ensures CommandMoved(m, before, y)
  {
    hide LegacyCommand, ArgumentsMoved;
  }

  /** One table's migration, before the new home is added. */
  lemma {:induction false} TableIsMoved(m: Migration, was: Fields, k: string)
    requires Injective(was) && k in was
    ensures var now := RemapHfHome(m, RenamedEnv(m.remap, was));
            Renamed(k) in now && now[Renamed(k)] == MovedVariable(m, k, was[k])
  {
    var env := RenamedEnv(m.remap, was);
    ValuesChangeByRemapOnly(m.remap, was, env, k);
    LegacyKeys(k, "");
    assert "HF_HOME"[0] != "MEMPALACE_"[0];
    assert NEW_PREFIX[0] == 'A';
    hide RenamedEnv, Injective;
  }

  lemma HfHomeKeepsKeys(m: Migration, env: Fields)
    ensures RemapHfHome(m, env).Keys == env.Keys
  {
  }

  /** A table with its variables moved, before the new home is added; anything that is no table is kept. */
  ghost predicate TableMoved(m: Migration, before: Fields, after: Fields, key: string) {
    if key in before && before[key].Object? then
      var was := before[key].fields;
      && Injective(was) && key in after && after[key].Object?
      && var now := after[key].fields;
         && (forall k :: k in was ==> Renamed(k) in now && now[Renamed(k)] == MovedVariable(m, k, was[k]))
         && (forall k :: k in now ==> exists o :: o in was && Renamed(o) == k)
    else (key in before <==> key in after) && (key in before ==> after[key] == before[key])
  }

  lemma {:induction false} EnvIsMoved(m: Migration, entry: Fields, key: string)
    requires MigrateEnvAt(m, entry, key).Some?
    ensures TableMoved(m, entry, MigrateEnvAt(m, entry, key).value, key)
  {
    hide RemapHfHome, RenamedEnv, MovedVariable, Injective, Renamed;
    if key in entry && entry[key].Object? {
      var was := entry[key].fields;
      forall k | k in was
        ensures var now := RemapHfHome(m, RenamedEnv(m.remap, was));
                Renamed(k) in now && now[Renamed(k)] == MovedVariable(m, k, was[k])
      {
        TableIsMoved(m, was, k);
      }
      HfHomeKeepsKeys(m, RenamedEnv(m.remap, was));
    }
  }

  lemma TableFrame(m: Migration, x: Fields, y: Fields, z: Fields, keys: set<string>, key: string)
    requires key !in keys
    ensures SameOutside(x, y, keys) && TableMoved(m, y, z, key) ==> TableMoved(m, x, z, key)
    ensures TableMoved(m, x, y, key) && SameOutside(y, z, keys) ==> TableMoved(m, x, z, key)
  {
    hide Injective, MovedVariable, Renamed;
  }

  lemma ConfigDirAdded(m: Migration, before: Fields, c: Fields, key: string)
    requires AddConfigDir(m, c).Some? && TableMoved(m, before, c, key) && (key == "env" || key == "environment")
    requires ("command" in before <==> "command" in c) && ("command" in c ==> before["command"].Array? == c["command"].Array?)
    ensures EnvMoved(m, before, AddConfigDir(m, c).value, key)
  {
    hide Injective, MovedVariable, Renamed;
  }

  lemma EnvFrame(m: Migration, before: Fields, x: Fields, y: Fields, keys: set<string>, key: string)
    requires EnvMoved(m, before, x, key) && SameOutside(x, y, keys) && key !in keys
    ensures EnvMoved(m, before, y, key)
  {
    hide Injective, MovedVariable, Renamed, Selected;
  }

  /** The command and both environments, up to the tool lists. */
  lemma {:induction false} BeforeToolsMoved(m: Migration, entry: Fields)
    requires BeforeTools(m, entry).Some?
    ensures CommandMoved(m, entry, BeforeTools(m, entry).value)
    ensures EnvMoved(m, entry, BeforeTools(m, entry).value, "env")
    ensures EnvMoved(m, entry, BeforeTools(m, entry).value, "environment")
  {
    hide MigrateCommand, MigrateEnvAt, AddConfigDir, MigrateEntry, MigrateTools, SameOutside, CommandMoved, TableMoved,
      EnvMoved, Legacy;
    var a := MigrateCommand(m, entry).value;
    var b := MigrateEnvAt(m, a, "env").value;
    var c := MigrateEnvAt(m, b, "environment").value;
    var d := AddConfigDir(m, c).value;
    CommandTouches(m, entry);
    EnvTouches(m, a, "env");
    EnvTouches(m, b, "environment");
    ConfigDirTouches(m, c);
    CommandIsMoved(m, entry);
    CommandFrame(m, entry, a, b, {"env"});
    CommandFrame(m, entry, b, c, {"environment"});
    CommandFrame(m, entry, c, d, {"env", "environment"});
    EnvIsMoved(m, a, "env");
    TableFrame(m, entry, a, b, {"command", "args"}, "env");
    TableFrame(m, entry, b, c, {"environment"}, "env");
    EnvIsMoved(m, b, "environment");
    TableFrame(m, a, b, c, {"env"}, "environment");
    TableFrame(m, entry, a, c, {"command", "args"}, "environment");
    CommandKind(m, entry, c);
    ConfigDirAdded(m, entry, c, "env");
    ConfigDirAdded(m, entry, c, "environment");
  }

  lemma CommandKind(m: Migration, before: Fields, after: Fields)
    requires CommandMoved(m, before, after)
    ensures ("command" in before <==> "command" in after)
    ensures "command" in after ==> before["command"].Array? == after["command"].Array?
  {
    hide LegacyCommand, ArgumentsMoved;
  }

  lemma ToolsAreMoved(before: Fields, d: Fields, keys: set<string>, key: string)
    requires SameOutside(before, d, keys) && key !in keys && key in TOOL_LISTS
    ensures ToolsMoved(before, MigrateTools(d), key)
  {
  }

  /** A registration that is migrated says everything the old one said, moved, and nothing more. */
  lemma {:induction false} EntryIsMoved(m: Migration, entry: Value)
    requires MigrateEntry(m, entry).Some?
    ensures entry.Object? && MigrateEntry(m, entry).value.Object?
    ensures EntryMoved(m, entry.fields, MigrateEntry(m, entry).value.fields)
  {
    assert BeforeTools(m, entry.fields).Some?;
    EntryKeepsTheRest(m, entry);
    hide MigrateEntry, BeforeTools, MigrateTools, SameOutside, CommandMoved, EnvMoved, ToolsMoved;
    var d := BeforeTools(m, entry.fields).value;
    var keys := {"command", "args", "env", "environment"};
    BeforeToolsMoved(m, entry.fields);
    BeforeToolsTouches(m, entry.fields);
    ToolsTouch(d);
    CommandFrame(m, entry.fields, d, MigrateTools(d), TOOL_LISTS);
    EnvFrame(m, entry.fields, d, MigrateTools(d), TOOL_LISTS, "env");
    EnvFrame(m, entry.fields, d, MigrateTools(d), TOOL_LISTS, "environment");
    ToolsAreMoved(entry.fields, d, keys, "enabled_tools");
    ToolsAreMoved(entry.fields, d, keys, "disabled_tools");
    ToolsAreMoved(entry.fields, d, keys, "autoApprove");
    ToolsAreMoved(entry.fields, d, keys, "alwaysAllow");
    assert TOUCHED == {"command", "args", "env", "environment", "enabled_tools", "disabled_tools", "autoApprove", "alwaysAllow"};
  }

  // ----- which registrations are refused -----

  /** The command cannot be replaced: there is none and no URL either, or it is no known launcher. */
  predicate BadCommand(entry: Fields) {
    if "command" !in entry then "url" !in entry
    else if entry["command"].Array? then
      entry["command"].items == [] || !entry["command"].items[0].Text? || !LegacyCommand(entry["command"].items[0].s)
    else
      !entry["command"].Text? || !LegacyCommand(entry["command"].s) || ("args" in entry && !entry["args"].Array?)
  }

  /** Two variables of one table would get one name. */
  ghost predicate Clash(entry: Fields, key: string) {
    && key in entry && entry[key].Object?
    && exists a, b :: a in entry[key].fields && b in entry[key].fields && a != b && Renamed(a) == Renamed(b)
  }

  /** A registration is refused for its command, for a clash of variables, or for an environment that is no table. */
  lemma {:induction false} EntryRefusedExactly(m: Migration, entry: Value)
    ensures MigrateEntry(m, entry).None? <==>
            || !entry.Object?
            || BadCommand(entry.fields)
            || Clash(entry.fields, "env") || Clash(entry.fields, "environment")
            || NoTable(entry.fields, "env") || NoTable(entry.fields, "environment")
  {
    if entry.Object? {
      assert entry == Object(entry.fields);
      assert MigrateEntry(m, entry).None? <==> BeforeTools(m, entry.fields).None?;
      CommandRefused(m, entry.fields);
      if MigrateCommand(m, entry.fields).Some? {
        RestRefused(m, entry.fields);
      }
    }
  }

  /** The environment that should get to know the new home is no table. */
  predicate NoTable(entry: Fields, key: string) {
    Selected(entry, key) && key in entry && !entry[key].Object?
  }

  lemma CommandRefused(m: Migration, entry: Fields)
    ensures MigrateCommand(m, entry).None? <==> BadCommand(entry)
  {
    hide LegacyCommand, RemapAll, ServeArguments;
  }

  lemma EnvRefused(m: Migration, entry: Fields, key: string)
    ensures MigrateEnvAt(m, entry, key).None? <==> Clash(entry, key)
  {
    hide RenamedEnv, RemapHfHome, Renamed;
  }

  lemma SameTable(x: Fields, y: Fields, keys: set<string>, key: string)
    requires SameOutside(x, y, keys) && key !in keys
    ensures Clash(x, key) == Clash(y, key)
    ensures (key in x <==> key in y) && (key in x ==> x[key] == y[key])
  {
    hide Renamed;
  }

  lemma ConfigDirRefused(m: Migration, c: Fields)
    ensures AddConfigDir(m, c).None? <==> NoTable(c, "env") || NoTable(c, "environment")
  {
  }

  lemma {:induction false} RestRefused(m: Migration, entry: Fields)
    requires MigrateCommand(m, entry).Some?
    ensures BeforeTools(m, entry).None? <==>
            || Clash(entry, "env") || Clash(entry, "environment")
            || NoTable(entry, "env") || NoTable(entry, "environment")
  {
    hide MigrateCommand, MigrateEnvAt, AddConfigDir, MigrateEntry, MigrateTools, SameOutside, Clash, Legacy;
    var a := MigrateCommand(m, entry).value;
    CommandTouches(m, entry);
    SameTable(entry, a, {"command", "args"}, "env");
    SameTable(entry, a, {"command", "args"}, "environment");
    EnvRefused(m, a, "env");
    if MigrateEnvAt(m, a, "env").Some? {
      var b := MigrateEnvAt(m, a, "env").value;
      EnvTouches(m, a, "env");
      SameTable(a, b, {"env"}, "environment");
      SameTable(a, b, {"env"}, "command");
      EnvRefused(m, b, "environment");
      if MigrateEnvAt(m, b, "environment").Some? {
        var c := MigrateEnvAt(m, b, "environment").value;
        EnvTouches(m, b, "environment");
        SameTable(b, c, {"environment"}, "env");
        SameTable(b, c, {"environment"}, "command");
        ConfigDirRefused(m, c);
        NoTableKept(m, a, b, "env");
        NoTableKept(m, b, c, "environment");
      }
    }
  }

  lemma NoTableKept(m: Migration, x: Fields, y: Fields, key: string)
    requires MigrateEnvAt(m, x, key) == Some(y)
    ensures key in x <==> key in y
    ensures key in x ==> x[key].Object? == y[key].Object?
  {
    hide RenamedEnv, RemapHfHome, Injective;
  }

  // ----- documents -----

  /** The servers of a document's section, if it has such a table. */
  predicate HasServers(document: Value, section: string) {
    document.Object? && section in document.fields && document.fields[section].Object?
  }

  function Servers(document: Value, section: string): Fields
    requires HasServers(document, section)
  {
    document.fields[section].fields
  }

  /**
   When a document is left alone, refused or changed, and what a changed one says: under the
   new name the old registration moved, and all the rest as it was.
   */
  lemma {:induction false} DocumentOutcome(m: Migration, document: Value, section: string)
    ensures EditDocument(m, document, section) == Unchanged <==>
            !HasServers(document, section) || "mempalace" !in Servers(document, section)
    ensures EditDocument(m, document, section) == Refused <==>
            && HasServers(document, section) && "mempalace" in Servers(document, section)
            && ("agentpalace" in Servers(document, section) || MigrateEntry(m, Servers(document, section)["mempalace"]).None?)
    ensures EditDocument(m, document, section).Changed? ==>
              var after := EditDocument(m, document, section).document;
              var was := Servers(document, section);
              && HasServers(after, section)
              && var now := Servers(after, section);
                 && after.fields.Keys == document.fields.Keys
                 && (forall key :: key in document.fields && key != section ==> after.fields[key] == document.fields[key])
                 && now.Keys == was.Keys - {"mempalace"} + {"agentpalace"}
                 && (forall name :: name in was && name != "mempalace" ==> now[name] == was[name])
                 && was["mempalace"].Object? && now["agentpalace"].Object?
                 && EntryMoved(m, was["mempalace"].fields, now["agentpalace"].fields)
  {
    assert OLD_NAME != NEW_NAME by {
      assert OLD_NAME[0] != NEW_NAME[0];
    }
    if EditDocument(m, document, section).Changed? {
      EntryIsMoved(m, Servers(document, section)["mempalace"]);
    }
    hide MigrateEntry, EntryMoved;
  }

  /**
   So the server that a changed document launches is the new executable, and no argument, no
   path variable, no variable name and no tool name of its registration is left behind.
   */
  lemma {:induction false} ChangedDocumentLaunchesTheNewServer(t: PathRemap.PathTexts, r: MigrationPlan.Roots, m: Migration, document: Value, section: string)
    requires RemapsBetween(t, r, m) && EditDocument(m, document, section).Changed?
    ensures var after := EditDocument(m, document, section).document;
            && HasServers(after, section) && "agentpalace" in Servers(after, section) && "mempalace" !in Servers(after, section)
            && Servers(after, section)["agentpalace"].Object?
            && var now := Servers(after, section)["agentpalace"].fields;
               && ("command" in now ==>
                     now["command"] == Text(m.binary)
                     || (now["command"].Array? && now["command"].items != [] && now["command"].items[0] == Text(m.binary)))
               && (forall v :: v in Arguments(now) ==> Outside(t, r.legacy, v))
               && (forall key :: key in {"env", "environment"} && key in now && now[key].Object? ==>
                     forall k :: k in now[key].fields ==> !Legacy(k))
               && (forall key, i :: key in TOOL_LISTS && key in now && now[key].Array? && 0 <= i < |now[key].items| ==>
                     !OldTool(now[key].items[i]))
  {
    var entry := Servers(document, section)["mempalace"];
    DocumentOutcome(m, document, section);
    assert Servers(EditDocument(m, document, section).document, section)["agentpalace"] == MigrateEntry(m, entry).value;
    assert "mempalace" != "agentpalace" by {
      assert "mempalace"[0] != "agentpalace"[0];
    }
    var now := MigrateEntry(m, entry).value.fields;
    hide EditDocument, MigrateEntry, EnvMoved, ToolsMoved, Arguments, Outside, OldTool, Legacy, RemapsBetween, LegacyCommand;
    PathsLeaveTheOldHome(t, r, m, entry);
    NoLegacyVariableRemains(m, entry);
    forall key, i | key in TOOL_LISTS && key in now && now[key].Array? && 0 <= i < |now[key].items|
      ensures !OldTool(now[key].items[i])
    {
      NoOldToolRemains(m, entry, key, i);
    }
  }

  // ----- client files -----

  /** A document that cannot be read, or whose registration cannot be migrated, refuses the run; the rest is kept or written anew. */
  lemma DocumentFile(m: Migration, alnum: char -> bool, section: string, codec: Codec<Value>, node: FileTree.Node)
    requires RoundTrips(codec)
    ensures var edit := RewriteClient(m, alnum, Document(section, codec), node);
            var read := if node.File? then codec.decode(node.content) else None;
            && (edit == MigrationPlan.Refuse <==> read.None? || EditDocument(m, read.value, section) == Refused)
            && (edit == MigrationPlan.Keep <==> read.Some? && EditDocument(m, read.value, section) == Unchanged)
            && (edit.Rewrite? ==>
                  && read.Some? && EditDocument(m, read.value, section).Changed?
                  && codec.decode(edit.content) == Some(EditDocument(m, read.value, section).document))
  {
    hide EditDocument;
  }

  /** An instruction file that is no text refuses the run; one with nothing to migrate is kept, and so is a place without a file. */
  lemma InstructionFile(m: Migration, alnum: char -> bool, codec: Codec<string>, node: FileTree.Node)
    requires RoundTrips(codec)
    ensures var edit := RewriteClient(m, alnum, Instruction(codec), node);
            && (edit == MigrationPlan.Refuse <==> node.File? && codec.decode(node.content).None?)
            && (edit == MigrationPlan.Keep <==>
                !node.File? || (codec.decode(node.content).Some? && InstructionMigration.Migrated(alnum, codec.decode(node.content).value)))
            && (edit.Rewrite? ==>
                  && node.File? && codec.decode(node.content).Some?
                  && codec.decode(edit.content) == Some(InstructionMigration.Migrate(alnum, codec.decode(node.content).value)))
  {
    if node.File? && codec.decode(node.content).Some? {
      InstructionMigration.KeptExactlyWhenMigrated(alnum, codec.decode(node.content).value);
    }
    hide InstructionMigration.Migrate, InstructionMigration.Migrated;
  }
}
