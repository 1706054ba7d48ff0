/**
 The client files of a migration: a document that registers the MCP server under its old
 name, and instruction files. Their rewriting is what the migration protocol needs it to
 be: a rewritten file needs no further rewriting.
 */
module ClientDocuments {
  import opened Options
  import opened Json
  import opened EntryMigration
  import FileTree
  import MigrationPlan
  import InstructionMigration
  import opened PathRemap

  // ----- one registration -----

  /** The last component of a command path. */
  function BaseName(command: string): string {
    if command == [] then []
    else
      var last := command[|command| - 1];
      if last == '/' || last == '\\' then [] else BaseName(command[..|command| - 1]) + [last]
  }

  predicate LegacyCommand(command: string) {
    BaseName(command) in {"mempalace", "mempalace.exe", "mempalace-mcp", "mempalace-mcp.exe", "mempalace-cli", "mempalace-cli.exe"}
  }

  predicate Contains(s: string, part: string) {
    part <= s || (s != [] && Contains(s[1..], part))
  }

  /** A launcher of the split kind served stdio by itself; the new one must be told to. */
  function ServeArguments(command: string): seq<Value> {
    if Contains(command, "-mcp") then [Text("serve"), Text("--stdio")] else []
  }

  function RemapAll(remap: string -> string, items: seq<Value>): (r: seq<Value>)
    ensures |r| == |items| && forall i :: 0 <= i < |items| ==> r[i] == RemapValue(remap, items[i])
  {
    seq(|items|, i requires 0 <= i < |items| => RemapValue(remap, items[i]))
  }

  datatype Migration = Migration(remap: string -> string, binary: string, target: string)

  /** The command becomes the new executable; its arguments stay, with paths remapped. */
  function MigrateCommand(m: Migration, entry: Fields): Option<Fields> {
    if "command" !in entry then (if "url" in entry then Some(entry) else None)
    else
      match entry["command"]
      case Array(items) =>
        if items == [] || !items[0].Text? || !LegacyCommand(items[0].s) then None
        else
          var arguments := RemapAll(m.remap, ServeArguments(items[0].s) + items[1..]);
          Some(entry["command" := Array([Text(m.binary)] + arguments)])
      case Text(command) =>
        var args := if "args" in entry then entry["args"] else Array([]);
        if !LegacyCommand(command) || !args.Array? then None
        else
          var arguments := RemapAll(m.remap, ServeArguments(command) + args.items);
          Some(entry["command" := Text(m.binary)]["args" := Array(arguments)])
      case _ => None
  }

  function RemapHfHome(m: Migration, env: Fields): Fields {
    if "HF_HOME" in env then env["HF_HOME" := RemapValue(m.remap, env["HF_HOME"])] else env
  }

  /** One environment table with its keys renamed; anything that is not a table is left alone. */
  ghost function MigrateEnvAt(m: Migration, entry: Fields, key: string): Option<Fields> {
    if key !in entry || !entry[key].Object? then Some(entry)
    else if !Injective(entry[key].fields) then None
    else Some(entry[key := Object(RemapHfHome(m, RenamedEnv(m.remap, entry[key].fields)))])
  }

  /** A launched server is told where the new home is, unless it already is. */
  function AddConfigDir(m: Migration, entry: Fields): Option<Fields> {
    if "command" !in entry then Some(entry)
    else
      var key := if entry["command"].Array? then "environment" else "env";
      var env := if key in entry then entry[key] else Object(map[]);
      if !env.Object? then None
      else if CONFIG_DIR in env.fields then Some(entry[key := env])
      else Some(entry[key := Object(env.fields[CONFIG_DIR := Text(m.target)])])
  }

  const TOOL_LISTS := {"enabled_tools", "disabled_tools", "autoApprove", "alwaysAllow"}

  predicate OldTool(v: Value) {
    v.Text? && "mempalace_" <= v.s
  }

  function RenameTool(v: Value): Value {
    if OldTool(v) then Text("agentpalace_" + v.s[10..]) else v
  }

  function RenameTools(items: seq<Value>): (r: seq<Value>)
    ensures |r| == |items| && forall i :: 0 <= i < |items| ==> r[i] == RenameTool(items[i])
  {
    seq(|items|, i requires 0 <= i < |items| => RenameTool(items[i]))
  }

  function MigrateTools(entry: Fields): (r: Fields)
    ensures r.Keys == entry.Keys
  {
    map key | key in entry ::
      if key in TOOL_LISTS && entry[key].Array? then Array(RenameTools(entry[key].items)) else entry[key]
  }

  /** `migrate_entry`. */
  ghost function MigrateEntry(m: Migration, entry: Value): Option<Value> {
    if !entry.Object? then None
    else
      var a := MigrateCommand(m, entry.fields);
      if a.None? then None
      else
        var b := MigrateEnvAt(m, a.value, "env");
        if b.None? then None
        else
          var c := MigrateEnvAt(m, b.value, "environment");
          if c.None? then None
          else
            var d := AddConfigDir(m, c.value);
            if d.None? then None else Some(Object(MigrateTools(d.value)))
  }

  const TOUCHED := {"command", "args", "env", "environment"} + TOOL_LISTS

  ghost predicate SameOutside(before: Fields, after: Fields, keys: set<string>) {
    forall k :: k !in keys ==> (k in before <==> k in after) && (k in before ==> before[k] == after[k])
  }

  lemma SameOutsideBoth(x: Fields, y: Fields, z: Fields, a: set<string>, b: set<string>)
    requires SameOutside(x, y, a) && SameOutside(y, z, b)
    ensures SameOutside(x, z, a + b)
  {
  }

  lemma CommandTouches(m: Migration, entry: Fields)
    requires MigrateCommand(m, entry).Some?
    ensures SameOutside(entry, MigrateCommand(m, entry).value, {"command", "args"})
    ensures "command" in MigrateCommand(m, entry).value <==> "command" in entry
    ensures "command" in entry ==> MigrateCommand(m, entry).value["command"].Array? == entry["command"].Array?
  {
    hide LegacyCommand, ServeArguments, RemapAll;
  }

  lemma EnvTouches(m: Migration, entry: Fields, key: string)
    requires MigrateEnvAt(m, entry, key).Some?
    ensures SameOutside(entry, MigrateEnvAt(m, entry, key).value, {key})
    ensures var after := MigrateEnvAt(m, entry, key).value;
            && (key in after <==> key in entry)
            && (key in after && after[key].Object? ==> forall k :: k in after[key].fields ==> !Legacy(k))
  {
    if key in entry && entry[key].Object? {
      NoLegacyKeyRemains(m.remap, entry[key].fields, RenamedEnv(m.remap, entry[key].fields));
    }
    hide RenamedEnv, Injective, Legacy, RemapValue;
  }

  lemma ConfigDirTouches(m: Migration, entry: Fields)
    requires AddConfigDir(m, entry).Some?
    ensures SameOutside(entry, AddConfigDir(m, entry).value, {"env", "environment"})
    ensures var after := AddConfigDir(m, entry).value;
            forall key :: key in {"env", "environment"} && key in after && after[key].Object? ==>
              forall k :: k in after[key].fields ==> k == CONFIG_DIR || (key in entry && entry[key].Object? && k in entry[key].fields)
    ensures "command" in entry ==>
              var after := AddConfigDir(m, entry).value;
              var key := if entry["command"].Array? then "environment" else "env";
              key in after && after[key].Object? && CONFIG_DIR in after[key].fields
  {
  }

  /** The entry after the command, the two environments and the home have been dealt with. */
  ghost function BeforeTools(m: Migration, entry: Fields): (r: Option<Fields>)
    ensures MigrateEntry(m, Object(entry)) == if r.None? then None else Some(Object(MigrateTools(r.value)))
  {
    hide MigrateCommand, MigrateEnvAt, AddConfigDir, MigrateTools;
    var a := MigrateCommand(m, entry);
    if a.None? then None
    else
      var b := MigrateEnvAt(m, a.value, "env");
      if b.None? then None
      else
        var c := MigrateEnvAt(m, b.value, "environment");
        if c.None? then None else AddConfigDir(m, c.value)
  }

  lemma BeforeToolsTouches(m: Migration, entry: Fields)
    requires BeforeTools(m, entry).Some?
    ensures SameOutside(entry, BeforeTools(m, entry).value, {"command", "args", "env", "environment"})
  {
    hide MigrateCommand, MigrateEnvAt, AddConfigDir, SameOutside, MigrateEntry;
    var a := MigrateCommand(m, entry).value;
    var b := MigrateEnvAt(m, a, "env").value;
    var c := MigrateEnvAt(m, b, "environment").value;
    var d := AddConfigDir(m, c).value;
    CommandTouches(m, entry);
    EnvTouches(m, a, "env");
    SameOutsideBoth(entry, a, b, {"command", "args"}, {"env"});
    EnvTouches(m, b, "environment");
    SameOutsideBoth(entry, b, c, {"command", "args"} + {"env"}, {"environment"});
    ConfigDirTouches(m, c);
    SameOutsideBoth(entry, c, d, {"command", "args"} + {"env"} + {"environment"}, {"env", "environment"});
    assert {"command", "args"} + {"env"} + {"environment"} + {"env", "environment"} == {"command", "args", "env", "environment"};
  }

  /** Nothing of a registration changes but its command, arguments, environment and tool lists. */
  lemma EntryKeepsTheRest(m: Migration, entry: Value)
    requires MigrateEntry(m, entry).Some?
    ensures MigrateEntry(m, entry).value.Object?
    ensures SameOutside(entry.fields, MigrateEntry(m, entry).value.fields, TOUCHED)
  {
    hide MigrateCommand, MigrateEnvAt, AddConfigDir, RenameTools, BeforeTools;
    var d := BeforeTools(m, entry.fields).value;
    BeforeToolsTouches(m, entry.fields);
    assert SameOutside(d, MigrateTools(d), TOOL_LISTS);
    SameOutsideBoth(entry.fields, d, MigrateTools(d), {"command", "args", "env", "environment"}, TOOL_LISTS);
  }

  /** No environment of a migrated registration has a legacy key, and a launched server knows the new home. */
  lemma {:induction false} NoLegacyVariableRemains(m: Migration, entry: Value)
    requires MigrateEntry(m, entry).Some?
    ensures var after := MigrateEntry(m, entry).value.fields;
            && (forall key :: key in {"env", "environment"} && key in after && after[key].Object? ==>
                  forall k :: k in after[key].fields ==> !Legacy(k))
            && ("command" in entry.fields ==>
                  var key := if entry.fields["command"].Array? then "environment" else "env";
                  key in after && after[key].Object? && CONFIG_DIR in after[key].fields)
  {
    hide MigrateCommand, MigrateEnvAt, AddConfigDir, Legacy, Suffix;
    var a := MigrateCommand(m, entry.fields).value;
    var b := MigrateEnvAt(m, a, "env").value;
    var c := MigrateEnvAt(m, b, "environment").value;
    var d := AddConfigDir(m, c).value;
    CommandTouches(m, entry.fields);
    EnvTouches(m, a, "env");
    EnvTouches(m, b, "environment");
    ConfigDirTouches(m, c);
    NewKeysAreNotLegacy(CONFIG_DIR);
    var after := MigrateTools(d);
    forall key | key in {"env", "environment"} && key in after && after[key].Object?
      ensures forall k :: k in after[key].fields ==> !Legacy(k)
    {
      assert after[key] == d[key];
    }
    if "command" in entry.fields {
      assert "command" in c;
      var key := if c["command"].Array? then "environment" else "env";
      assert after[key] == d[key];
    }
  }

  // ----- where the paths of a migrated registration lead -----

  /** Not a path into this directory. */
  predicate Outside(t: PathTexts, root: FileTree.Path, v: Value) {
    v.Text? ==> !Inside(t, root, v.s)
  }

  /** The migration of paths from one place to another, which are apart. */
  ghost predicate RemapsBetween(t: PathTexts, r: MigrationPlan.Roots, m: Migration) {
    && FaithfulPaths(t) && Proper(r.target) && MigrationPlan.Apart(r.legacy, r.target)
    && forall s :: m.remap(s) == Remap(t, r, s)
  }

  lemma RemappedIsOutside(t: PathTexts, r: MigrationPlan.Roots, m: Migration, v: Value)
    requires RemapsBetween(t, r, m)
    ensures Outside(t, r.legacy, RemapValue(m.remap, v))
  {
    hide FaithfulPaths, Proper, Inside, Remap;
    if v.Text? {
      RemapLeavesTheOldHome(t, r, v.s);
    }
  }

  /** The arguments a registration launches its server with. */
  function Arguments(entry: Fields): seq<Value> {
    if "command" !in entry then []
    else if entry["command"].Array? then (if entry["command"].items == [] then [] else entry["command"].items[1..])
    else if "args" in entry && entry["args"].Array? then entry["args"].items
    else []
  }

  lemma ArgumentsAreOutside(t: PathTexts, r: MigrationPlan.Roots, m: Migration, entry: Fields)
    requires RemapsBetween(t, r, m) && MigrateCommand(m, entry).Some?
    ensures forall v :: v in Arguments(MigrateCommand(m, entry).value) ==> Outside(t, r.legacy, v)
  {
    hide LegacyCommand, ServeArguments, RemapsBetween, Outside;
    var after := Arguments(MigrateCommand(m, entry).value);
    forall i | 0 <= i < |after|
      ensures Outside(t, r.legacy, after[i])
    {
      if entry["command"].Array? {
        RemappedIsOutside(t, r, m, (ServeArguments(entry["command"].items[0].s) + entry["command"].items[1..])[i]);
      } else {
        var args := if "args" in entry then entry["args"] else Array([]);
        RemappedIsOutside(t, r, m, (ServeArguments(entry["command"].s) + args.items)[i]);
      }
    }
  }

  /** A variable whose value is a path by its name: the model cache's, or a legacy one of that kind. */
  predicate PathVariable(key: string) {
    key == "HF_HOME" || (Legacy(key) && (EndsWith(Suffix(key).value, "_DIR") || EndsWith(Suffix(key).value, "_PATH")))
  }

  /** In this environment, no variable that was a path variable before leads into the old home. */
  ghost predicate PathsOutside(t: PathTexts, root: FileTree.Path, before: Fields, after: Fields) {
    forall k :: k in before && PathVariable(k) ==> Renamed(k) in after && Outside(t, root, after[Renamed(k)])
  }

  lemma EnvIsOutside(t: PathTexts, r: MigrationPlan.Roots, m: Migration, entry: Fields, key: string)
    requires RemapsBetween(t, r, m) && MigrateEnvAt(m, entry, key).Some?
    requires key in entry && entry[key].Object?
    ensures var after := MigrateEnvAt(m, entry, key).value;
            key in after && after[key].Object? && PathsOutside(t, r.legacy, entry[key].fields, after[key].fields)
  {
    var before := entry[key].fields;
    var env := RenamedEnv(m.remap, before);
    var after := MigrateEnvAt(m, entry, key).value[key].fields;
    hide RemapsBetween, Outside, RenamedEnv, Injective;
    forall k | k in before && PathVariable(k)
      ensures Renamed(k) in after && Outside(t, r.legacy, after[Renamed(k)])
    {
      assert env[Renamed(k)] == RenamedValue(m.remap, k, before[k]);
      RemappedIsOutside(t, r, m, before[k]);
      RemappedIsOutside(t, r, m, env[Renamed(k)]);
    }
  }

  lemma ConfigDirKeepsValues(m: Migration, entry: Fields, key: string)
    requires AddConfigDir(m, entry).Some? && key in entry && entry[key].Object?
    ensures var after := AddConfigDir(m, entry).value;
            && key in after && after[key].Object?
            && forall k :: k in entry[key].fields ==> k in after[key].fields && after[key].fields[k] == entry[key].fields[k]
  {
  }

  lemma SameArguments(x: Fields, y: Fields, keys: set<string>)
    requires SameOutside(x, y, keys) && "command" !in keys && "args" !in keys
    ensures Arguments(x) == Arguments(y)
  {
  }

  lemma SameAtKey(x: Fields, y: Fields, keys: set<string>, key: string)
    requires SameOutside(x, y, keys) && key !in keys && key in x
    ensures key in y && y[key] == x[key]
  {
  }

  lemma ToolsTouch(entry: Fields)
    ensures SameOutside(entry, MigrateTools(entry), TOOL_LISTS)
  {
    hide RenameTools;
  }

  /** What follows the command's migration leaves the arguments alone. */
  lemma {:induction false} ArgumentsAreKept(m: Migration, entry: Fields)
    requires BeforeTools(m, entry).Some?
    ensures Arguments(MigrateTools(BeforeTools(m, entry).value)) == Arguments(MigrateCommand(m, entry).value)
  {
    hide MigrateCommand, MigrateEnvAt, AddConfigDir, MigrateEntry, MigrateTools, SameOutside, Arguments, Legacy;
    var a := MigrateCommand(m, entry).value;
    var b := MigrateEnvAt(m, a, "env").value;
    var c := MigrateEnvAt(m, b, "environment").value;
    var d := AddConfigDir(m, c).value;
    EnvTouches(m, a, "env");
    SameArguments(a, b, {"env"});
    EnvTouches(m, b, "environment");
    SameArguments(b, c, {"environment"});
    ConfigDirTouches(m, c);
    SameArguments(c, d, {"env", "environment"});
    ToolsTouch(d);
    SameArguments(d, MigrateTools(d), TOOL_LISTS);
  }

  lemma {:induction false} EntryEnvIsOutside(t: PathTexts, r: MigrationPlan.Roots, m: Migration, entry: Fields, key: string)
    requires RemapsBetween(t, r, m) && BeforeTools(m, entry).Some?
    requires key == "env" || key == "environment"
    requires key in entry && entry[key].Object?
    ensures var after := MigrateTools(BeforeTools(m, entry).value);
            key in after && after[key].Object? && PathsOutside(t, r.legacy, entry[key].fields, after[key].fields)
  {
    hide MigrateCommand, MigrateEnvAt, AddConfigDir, MigrateEntry, MigrateTools, SameOutside, RemapsBetween, Outside,
      PathVariable, Renamed, Legacy;
    var a := MigrateCommand(m, entry).value;
    var b := MigrateEnvAt(m, a, "env").value;
    var c := MigrateEnvAt(m, b, "environment").value;
    var d := AddConfigDir(m, c).value;
    CommandTouches(m, entry);
    SameAtKey(entry, a, {"command", "args"}, key);
    if key == "env" {
      EnvIsOutside(t, r, m, a, key);
      EnvTouches(m, b, "environment");
      SameAtKey(b, c, {"environment"}, key);
    } else {
      EnvTouches(m, a, "env");
      SameAtKey(a, b, {"env"}, key);
      EnvIsOutside(t, r, m, b, key);
    }
    ConfigDirKeepsValues(m, c, key);
    ToolsTouch(d);
    SameAtKey(d, MigrateTools(d), TOOL_LISTS, key);
  }

  /**
   With the real path rewriting, nothing that a migrated registration hands to the server
   leads into the legacy home: no argument, and no variable that was a path by its name.
   */
  lemma {:induction false} PathsLeaveTheOldHome(t: PathTexts, r: MigrationPlan.Roots, m: Migration, entry: Value)
    requires RemapsBetween(t, r, m) && MigrateEntry(m, entry).Some?
    ensures var after := MigrateEntry(m, entry).value.fields;
            && (forall v :: v in Arguments(after) ==> Outside(t, r.legacy, v))
            && (forall key :: key in {"env", "environment"} && key in entry.fields && entry.fields[key].Object? ==>
                  && key in after && after[key].Object?
                  && PathsOutside(t, r.legacy, entry.fields[key].fields, after[key].fields))
  {
    assert MigrateCommand(m, entry.fields).Some? && BeforeTools(m, entry.fields).Some?;
    hide MigrateEntry, MigrateCommand, MigrateTools, BeforeTools, Arguments, RemapsBetween, PathsOutside, Outside;
    ArgumentsAreKept(m, entry.fields);
    ArgumentsAreOutside(t, r, m, entry.fields);
    forall key | key in {"env", "environment"} && key in entry.fields && entry.fields[key].Object?
      ensures var after := MigrateEntry(m, entry).value.fields;
              && key in after && after[key].Object?
              && PathsOutside(t, r.legacy, entry.fields[key].fields, after[key].fields)
    {
      EntryEnvIsOutside(t, r, m, entry.fields, key);
    }
  }

  lemma RenamedToolIsNew(v: Value)
    ensures !OldTool(RenameTool(v))
  {
    if OldTool(v) {
      assert RenameTool(v).s[0] == "agentpalace_"[0] == 'a';
      assert "mempalace_"[0] == 'm';
    }
  }

  /** No tool list names an old tool any more. */
  lemma NoOldToolRemains(m: Migration, entry: Value, key: string, i: nat)
    requires MigrateEntry(m, entry).Some? && key in TOOL_LISTS
    ensures var after := MigrateEntry(m, entry).value.fields;
            key in after && after[key].Array? && i < |after[key].items| ==> !OldTool(after[key].items[i])
  {
    hide RenamedEnv, Injective, RemapHfHome, LegacyCommand, ServeArguments, OldTool, RenameTool;
    var a := MigrateCommand(m, entry.fields).value;
    var b := MigrateEnvAt(m, a, "env").value;
    var c := MigrateEnvAt(m, b, "environment").value;
    var d := AddConfigDir(m, c).value;
    if key in d && d[key].Array? && i < |d[key].items| {
      RenamedToolIsNew(d[key].items[i]);
    }
  }

  // ----- one document -----

  const OLD_NAME := "mempalace"
  const NEW_NAME := "agentpalace"

  datatype DocumentEdit = Unchanged | Changed(document: Value) | Refused

  /** The part of `client_edits` for one document: the old registration moves to the new name. */
  ghost function EditDocument(m: Migration, document: Value, section: string): DocumentEdit {
    if !document.Object? || section !in document.fields || !document.fields[section].Object? then Unchanged
    else
      var servers := document.fields[section].fields;
      if OLD_NAME !in servers then Unchanged
      else if NEW_NAME in servers || MigrateEntry(m, servers[OLD_NAME]).None? then Refused
      else
        var moved := (servers - {OLD_NAME})[NEW_NAME := MigrateEntry(m, servers[OLD_NAME]).value];
        Changed(Object(document.fields[section := Object(moved)]))
  }

  /** A changed document needs no change, and keeps every other key and every other server. */
  lemma ChangedDocumentIsDone(m: Migration, document: Value, section: string)
    requires EditDocument(m, document, section).Changed?
    ensures var after := EditDocument(m, document, section).document;
            && EditDocument(m, after, section) == Unchanged
            && (forall key :: key in document.fields && key != section ==> key in after.fields && after.fields[key] == document.fields[key])
            && (forall name :: name in document.fields[section].fields && name != OLD_NAME ==>
                  name in after.fields[section].fields
                  && after.fields[section].fields[name] == document.fields[section].fields[name])
            && |after.fields[section].fields| == |document.fields[section].fields|
  {
    hide MigrateEntry;
    var servers := document.fields[section].fields;
    var after := EditDocument(m, document, section).document.fields[section].fields;
    assert OLD_NAME != NEW_NAME by {
      assert OLD_NAME[0] != NEW_NAME[0];
    }
    assert after.Keys == servers.Keys - {OLD_NAME} + {NEW_NAME};
  }

  // ----- one client file -----

  /** How the bytes of a file and what they say correspond. */
  datatype Codec<!T> = Codec(decode: FileTree.Content -> Option<T>, encode: T -> FileTree.Content)

  ghost predicate RoundTrips<T(!new)>(codec: Codec<T>) {
    forall x :: codec.decode(codec.encode(x)) == Some(x)
  }

  datatype Kind =
    | Document(section: string, values: Codec<Value>)
    | Instruction(texts: Codec<string>)

  ghost predicate Faithful(kind: Kind) {
    if kind.Document? then RoundTrips(kind.values) else RoundTrips(kind.texts)
  }

  ghost function RewriteClient(m: Migration, alnum: char -> bool, kind: Kind, node: FileTree.Node): MigrationPlan.Edit {
    match kind
    case Document(section, codec) =>
      if !node.File? || codec.decode(node.content).None? then MigrationPlan.Refuse
      else (
        match EditDocument(m, codec.decode(node.content).value, section)
        case Unchanged => MigrationPlan.Keep
        case Refused => MigrationPlan.Refuse
        case Changed(document) => MigrationPlan.Rewrite(codec.encode(document))
      )
    case Instruction(codec) =>
      if !node.File? then MigrationPlan.Keep
      else if codec.decode(node.content).None? then MigrationPlan.Refuse
      else
        var text := codec.decode(node.content).value;
        var migrated := InstructionMigration.Migrate(alnum, text);
        if migrated == text then MigrationPlan.Keep else MigrationPlan.Rewrite(codec.encode(migrated))
  }

  /**
   A rewritten client file is kept as it is by the next run: the assumption under which the
   migration protocol recovers holds of the real rewriters.
   */
  lemma RewrittenClientIsKept(m: Migration, alnum: char -> bool, kind: Kind, node: FileTree.Node)
    requires Faithful(kind)
    requires RewriteClient(m, alnum, kind, node).Rewrite?
    ensures RewriteClient(m, alnum, kind, FileTree.File(RewriteClient(m, alnum, kind, node).content)) == MigrationPlan.Keep
  {
    hide EditDocument, InstructionMigration.Migrate;
    match kind
    case Document(section, codec) =>
      ChangedDocumentIsDone(m, codec.decode(node.content).value, section);
    case Instruction(codec) =>
      InstructionMigration.MigrationIsIdempotent(alnum, codec.decode(node.content).value);
  }

  /** So a migration whose clients are of these kinds is stable. */
  lemma ClientsAreStable(c: MigrationPlan.Setup, m: Migration, alnum: char -> bool, kinds: FileTree.Path -> Kind)
    requires forall p :: Faithful(kinds(p))
    requires forall p, x :: c.rewrite(p, x) == RewriteClient(m, alnum, kinds(p), x)
    ensures MigrationPlan.Stable(c)
  {
    hide RewriteClient, Faithful;
    forall p, x | c.rewrite(p, x).Rewrite?
      ensures c.rewrite(p, FileTree.File(c.rewrite(p, x).content)) == MigrationPlan.Keep
    {
      RewrittenClientIsKept(m, alnum, kinds(p), x);
    }
  }
}
