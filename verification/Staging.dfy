/**
 Staging a legacy home: the tree is copied, its `config.json` and `identity.txt` are
 rewritten in the copy, and the marker is written last.
 */
module Staging {
  import opened Options
  import opened FileTree
  import opened Json
  import opened EntryMigration
  import opened MigrationPlan
  import opened TreeCopy
  import opened PathRemap
  import opened ClientDocuments
  import InstructionMigration

  // ----- the configuration file -----

  const COLLECTION := "collection_name"
  const OLD_COLLECTION := "mempalace_drawers"

  function WithCollection(fields: Fields): Fields {
    if COLLECTION in fields then fields else fields[COLLECTION := Text(OLD_COLLECTION)]
  }

  function RemapAt(remap: string -> string, fields: Fields, key: string): Fields {
    if key in fields then fields[key := RemapValue(remap, fields[key])] else fields
  }

  function RemapTokenFile(remap: string -> string, fields: Fields): Fields {
    if "server" in fields && fields["server"].Object?
    then fields["server" := Object(RemapAt(remap, fields["server"].fields, "token_file"))] else fields
  }

  predicate LegacyTokenEnv(remote: Value) {
    && remote.Object? && "token_env" in remote.fields && remote.fields["token_env"].Text?
    && LEGACY_PREFIX <= remote.fields["token_env"].s
  }

  function RenameTokenEnv(remote: Value): Value {
    if LegacyTokenEnv(remote)
    then Object(remote.fields["token_env" := Text(NEW_PREFIX + remote.fields["token_env"].s[|LEGACY_PREFIX|..])])
    else remote
  }

  predicate HasRemotes(fields: Fields) {
    && "federation" in fields && fields["federation"].Object?
    && "remotes" in fields["federation"].fields && fields["federation"].fields["remotes"].Array?
  }

  function Remotes(fields: Fields): seq<Value> {
    if HasRemotes(fields) then fields["federation"].fields["remotes"].items else []
  }

  function WithRemotes(fields: Fields, remotes: seq<Value>): Fields
    requires HasRemotes(fields)
  {
    fields["federation" := Object(fields["federation"].fields["remotes" := Array(remotes)])]
  }

  function RenameRemotes(fields: Fields): Fields {
    if HasRemotes(fields)
    then WithRemotes(fields, seq(|Remotes(fields)|, i requires 0 <= i < |Remotes(fields)| => RenameTokenEnv(Remotes(fields)[i])))
    else fields
  }

  /** The configuration a staged home gets, unless what was read is not an object. */
  function StagedConfig(remap: string -> string, config: Value): Option<Value> {
    if !config.Object? then None
    else Some(Object(RenameRemotes(RemapTokenFile(remap, RemapAt(remap, WithCollection(config.fields), "palace_path")))))
  }

  /** The rewriting of the configuration, one edit after the other. */
  method RewriteConfig(remap: string -> string, config: Value) returns (rewritten: Option<Value>)
    ensures rewritten == StagedConfig(remap, config)
  {
    if !config.Object? {
      return None;
    }
    var fields := config.fields;
    if COLLECTION !in fields {
      fields := fields[COLLECTION := Text(OLD_COLLECTION)];
    }
    if "palace_path" in fields {
      fields := fields["palace_path" := RemapValue(remap, fields["palace_path"])];
    }
    if "server" in fields && fields["server"].Object? {
      var server := fields["server"].fields;
      if "token_file" in server {
        server := server["token_file" := RemapValue(remap, server["token_file"])];
      }
      fields := fields["server" := Object(server)];
    }
    if HasRemotes(fields) {
      var before := fields;
      var remotes := Remotes(fields);
      for i := 0 to |remotes|
        invariant |remotes| == |Remotes(before)|
        invariant forall k :: 0 <= k < |remotes| ==>
                    remotes[k] == if k < i then RenameTokenEnv(Remotes(before)[k]) else Remotes(before)[k]
      {
        remotes := remotes[i := RenameTokenEnv(remotes[i])];
      }
      assert remotes == seq(|Remotes(before)|, i requires 0 <= i < |Remotes(before)| => RenameTokenEnv(Remotes(before)[i]));
      fields := WithRemotes(fields, remotes);
    }
    return Some(Object(fields));
  }

  const CONFIG_TOUCHED := {"palace_path", "server", "federation"}

  /**
   The rewritten configuration keeps every setting but the two paths and the names of the
   token variables: a stored collection name is never replaced, and a missing one becomes
   the legacy default, under which the data was written.
   */
  lemma ConfigKeepsTheRest(remap: string -> string, config: Value)
    requires StagedConfig(remap, config).Some?
    ensures var before, after := config.fields, StagedConfig(remap, config).value.fields;
            && after.Keys == before.Keys + {COLLECTION}
            && after[COLLECTION] == (if COLLECTION in before then before[COLLECTION] else Text(OLD_COLLECTION))
            && (forall key :: key in before && key !in CONFIG_TOUCHED ==> after[key] == before[key])
            && ("palace_path" in before ==> after["palace_path"] == RemapValue(remap, before["palace_path"]))
  {
    hide RenameTokenEnv, RemapValue;
  }

  /** Within the server section only the token file is remapped. */
  lemma ServerKeepsTheRest(remap: string -> string, config: Value)
    requires StagedConfig(remap, config).Some? && "server" in config.fields
    ensures var before, after := config.fields["server"], StagedConfig(remap, config).value.fields["server"];
            if before.Object? then
              && after.Object? && after.fields.Keys == before.fields.Keys
              && (forall key :: key in before.fields && key != "token_file" ==> after.fields[key] == before.fields[key])
              && ("token_file" in before.fields ==> after.fields["token_file"] == RemapValue(remap, before.fields["token_file"]))
            else after == before
  {
    hide RenameTokenEnv, RemapValue;
  }

  /** Federation remotes stay in order; each keeps all but a legacy name of its token variable, and none of those is left. */
  lemma RemotesAreConserved(remap: string -> string, config: Value, i: nat)
    requires StagedConfig(remap, config).Some?
    ensures var before, after := Remotes(config.fields), Remotes(StagedConfig(remap, config).value.fields);
            && |after| == |before|
            && (i < |before| ==>
                  && !LegacyTokenEnv(after[i])
                  && (LegacyTokenEnv(before[i]) ==>
                        && after[i].Object? && after[i].fields.Keys == before[i].fields.Keys
                        && after[i].fields["token_env"] ==
                           Text(NEW_PREFIX + before[i].fields["token_env"].s[|LEGACY_PREFIX|..])
                        && forall key :: key in before[i].fields && key != "token_env" ==>
                             after[i].fields[key] == before[i].fields[key])
                  && (!LegacyTokenEnv(before[i]) ==> after[i] == before[i]))
  {
    hide RemapValue, LegacyTokenEnv;
    var fields := RemapTokenFile(remap, RemapAt(remap, WithCollection(config.fields), "palace_path"));
    assert HasRemotes(fields) == HasRemotes(config.fields) && Remotes(fields) == Remotes(config.fields);
    if i < |Remotes(fields)| {
      assert Remotes(RenameRemotes(fields))[i] == RenameTokenEnv(Remotes(fields)[i]);
      RenamedTokenEnvIsNew(Remotes(fields)[i]);
    }
  }

  lemma RenamedTokenEnvIsNew(remote: Value)
    ensures !LegacyTokenEnv(RenameTokenEnv(remote))
    ensures LegacyTokenEnv(remote) ==> remote.Object? && "token_env" in remote.fields && remote.fields["token_env"].Text?
    ensures LegacyTokenEnv(remote) ==> |LEGACY_PREFIX| <= |remote.fields["token_env"].s|
  {
    if LegacyTokenEnv(remote) {
      NewKeysAreNotLegacy(RenameTokenEnv(remote).fields["token_env"].s);
    }
  }

  /** A staged configuration names no path inside the legacy home where the legacy one could: its palace and its token file. */
  lemma ConfigLeavesTheOldHome(t: PathTexts, r: Roots, config: Value)
    requires FaithfulPaths(t) && Proper(r.target) && Apart(r.legacy, r.target)
    requires StagedConfig(text => Remap(t, r, text), config).Some?
    ensures var after := StagedConfig(text => Remap(t, r, text), config).value.fields;
            && ("palace_path" in after && after["palace_path"].Text? ==> !Inside(t, r.legacy, after["palace_path"].s))
            && ("server" in after && after["server"].Object? && "token_file" in after["server"].fields
                && after["server"].fields["token_file"].Text? ==>
                  !Inside(t, r.legacy, after["server"].fields["token_file"].s))
  {
    assert config.Object?;
    hide StagedConfig, Remap, Inside, FaithfulPaths, Apart, Proper;
    var remap := text => Remap(t, r, text);
    ConfigKeepsTheRest(remap, config);
    if "palace_path" in config.fields && config.fields["palace_path"].Text? {
      RemapLeavesTheOldHome(t, r, config.fields["palace_path"].s);
    }
    if "server" in config.fields {
      ServerKeepsTheRest(remap, config);
      var server := config.fields["server"];
      if server.Object? && "token_file" in server.fields && server.fields["token_file"].Text? {
        RemapLeavesTheOldHome(t, r, server.fields["token_file"].s);
      }
    }
  }

  // ----- the staged tree -----

  /**
   The world a home is staged in: the disk that links are resolved on, the readers and
   printers of its files, and the character table of the instruction rewriter.
   */
  datatype World = World(
    disk: Node, hops: nat, values: Codec<Value>, texts: Codec<string>, paths: PathTexts, alnum: char -> bool)

  predicate HasFile(entries: seq<Entry>, name: string) {
    Find(entries, name).Some? && Find(entries, name).value.File?
  }

  predicate HasDir(entries: seq<Entry>, name: string) {
    Find(entries, name).Some? && Find(entries, name).value.Dir?
  }

  const CONFIG := "config.json"
  const IDENTITY := "identity.txt"

  function RemapFor(w: World, r: Roots): string -> string {
    text => Remap(w.paths, r, text)
  }

  /** The new `config.json`: rewritten from the one that was read, or from nothing. */
  function NewConfig(w: World, r: Roots, was: Option<Content>): Option<Content> {
    var config := if was.Some? then w.values.decode(was.value) else Some(Object(map[]));
    if config.None? then None
    else
      var rewritten := StagedConfig(RemapFor(w, r), config.value);
      if rewritten.None? then None else Some(w.values.encode(rewritten.value))
  }

  function NewIdentity(w: World, was: Content): Option<Content> {
    var text := w.texts.decode(was);
    if text.None? then None else Some(w.texts.encode(InstructionMigration.Migrate(w.alnum, text.value)))
  }

  /** A copy with a configuration, or with a palace and so in need of one, gets it written. */
  function WriteConfig(w: World, r: Roots, copy: seq<Entry>): Option<seq<Entry>> {
    if !HasFile(copy, CONFIG) && !HasDir(copy, "palace") then Some(copy)
    else
      var config := NewConfig(w, r, if HasFile(copy, CONFIG) then Some(Find(copy, CONFIG).value.content) else None);
      if config.None? then None else WriteFile(copy, CONFIG, config.value)
  }

  function WriteIdentity(w: World, copy: seq<Entry>): Option<seq<Entry>> {
    if !HasFile(copy, IDENTITY) then Some(copy)
    else
      var identity := NewIdentity(w, Find(copy, IDENTITY).value.content);
      if identity.None? then None else WriteFile(copy, IDENTITY, identity.value)
  }

  /** The part of `migrate_data` between the staging directory's creation and the marker. */
  function StageTree(w: World, r: Roots, tree: Node): Option<Node> {
    if !tree.Dir? then None
    else
      var copy := CopyEntries(w.disk, r.legacy, tree.entries, true, r.legacy, w.hops);
      if copy.None? then None
      else
        var configured := WriteConfig(w, r, copy.value);
        if configured.None? then None
        else
          var staged := WriteIdentity(w, configured.value);
          if staged.None? then None else Some(Dir(staged.value))
  }

  method RewriteConfigFile(w: World, r: Roots, copy: seq<Entry>) returns (written: Option<seq<Entry>>)
    ensures written == WriteConfig(w, r, copy)
  {
    hide Find, WriteFile, StagedConfig, Remap;
    if !HasFile(copy, CONFIG) && !HasDir(copy, "palace") {
      return Some(copy);
    }
    var config := Some(Object(map[]));
    if HasFile(copy, CONFIG) {
      config := w.values.decode(Find(copy, CONFIG).value.content);
    }
    if config.None? {
      return None;
    }
    var rewritten := RewriteConfig(RemapFor(w, r), config.value);
    if rewritten.None? {
      return None;
    }
    return WriteFile(copy, CONFIG, w.values.encode(rewritten.value));
  }

  method RewriteIdentityFile(w: World, copy: seq<Entry>) returns (written: Option<seq<Entry>>)
    ensures written == WriteIdentity(w, copy)
  {
    hide Find, WriteFile, InstructionMigration.Migrate;
    if !HasFile(copy, IDENTITY) {
      return Some(copy);
    }
    var text := w.texts.decode(Find(copy, IDENTITY).value.content);
    if text.None? {
      return None;
    }
    var migrated := InstructionMigration.MigrateInstructions(w.alnum, text.value);
    return WriteFile(copy, IDENTITY, w.texts.encode(migrated));
  }

  /** The same as a sequence of writes into the staging directory. */
  method BuildStage(w: World, r: Roots, tree: Node) returns (staged: Option<Node>)
    ensures staged == StageTree(w, r, tree)
  {
    hide CopyEntries, WriteConfig, WriteIdentity;
    if !tree.Dir? {
      return None;
    }
    var entries := CopyTreeWithin(w.disk, r.legacy, tree.entries, true, r.legacy, w.hops);
    if entries.None? {
      return None;
    }
    entries := RewriteConfigFile(w, r, entries.value);
    if entries.None? {
      return None;
    }
    entries := RewriteIdentityFile(w, entries.value);
    return if entries.None? then None else Some(Dir(entries.value));
  }

  // ----- what a staged tree holds, told from the legacy home alone -----

  /**
   What reading a path of the new home must give: nothing under `bin`, the marker, the two
   rewritten files, and everything else as the legacy home reads through its links.
   */
  function Expected(w: World, r: Roots, tree: Node, rel: Path): Option<Content>
    requires tree.Dir? && rel != []
  {
    var was := ReadThrough(w.disk, r.legacy + rel, w.hops);
    if rel[0] == "bin" then None
    else if rel == [MARKER] then Some(Marker(1, r.legacy, r.target))
    else if rel == [CONFIG] then (if was.Some? || HasDir(tree.entries, "palace") then NewConfig(w, r, was) else None)
    else if rel == [IDENTITY] then (if was.Some? then NewIdentity(w, was.value) else None)
    else was
  }

  lemma {:induction false} BinIsLeftOut(root: Node, at: Path, entries: seq<Entry>, boundary: Path, hops: nat)
    requires CopyEntries(root, at, entries, true, boundary, hops).Some?
    ensures Find(CopyEntries(root, at, entries, true, boundary, hops).value, "bin").None?
  {
    hide CopyNode;
    if entries != [] {
      BinIsLeftOut(root, at, entries[1..], boundary, hops);
      var rest := CopyEntries(root, at, entries[1..], true, boundary, hops).value;
      var all := CopyEntries(root, at, entries, true, boundary, hops).value;
      if !Skipped(true, entries[0].name) {
        assert all[1..] == rest;
      }
    }
  }

  /** A path of one component reads as the file of that name; a longer one reads nothing when a file stands in its way. */
  lemma ReadAtTop(entries: seq<Entry>, rel: Path)
    requires rel != []
    ensures HasFile(entries, rel[0]) ==>
              FileAt(Dir(entries), Some(rel)) == if |rel| == 1 then Some(Find(entries, rel[0]).value.content) else None
    ensures |rel| == 1 && !HasFile(entries, rel[0]) ==> FileAt(Dir(entries), Some(rel)).None?
    ensures Find(entries, rel[0]).None? ==> FileAt(Dir(entries), Some(rel)).None?
  {
    hide Find;
    FileBelow(Dir(entries), rel);
  }

  lemma SameFirst(a: seq<Entry>, b: seq<Entry>, rel: Path)
    requires rel != [] && Find(a, rel[0]) == Find(b, rel[0])
    ensures FileAt(Dir(a), Some(rel)) == FileAt(Dir(b), Some(rel))
  {
    hide Find;
    FileBelow(Dir(a), rel);
    FileBelow(Dir(b), rel);
  }

  /** What one write changes: the path itself, and nothing that could be read before at any other path. */
  lemma WriteReads(entries: seq<Entry>, name: string, content: Content, rel: Path)
    requires WriteFile(entries, name, content).Some? && rel != []
    ensures FileAt(Dir(WriteFile(entries, name, content).value), Some(rel)) ==
            if rel == [name] then Some(content) else FileAt(Dir(entries), Some(rel))
  {
    var written := WriteFile(entries, name, content).value;
    hide FileAt, WriteFile, Find;
    if rel[0] == name {
      assert HasFile(written, name);
      assert rel == [name] <==> |rel| == 1;
      ReadAtTop(written, rel);
      ReadAtTop(entries, rel);
    } else {
      SameFirst(written, entries, rel);
    }
  }

  lemma HasFileIsReadable(entries: seq<Entry>, name: string)
    ensures HasFile(entries, name) <==> FileAt(Dir(entries), Some([name])).Some?
    ensures HasFile(entries, name) ==> FileAt(Dir(entries), Some([name])) == Some(Find(entries, name).value.content)
  {
    hide Find, FileAt;
    ReadAtTop(entries, [name]);
  }

  /** A directory of the copy is a directory of the source, and everything else in the copy is a file. */
  lemma DirsAreCopied(w: World, r: Roots, tree: Node, name: string)
    requires tree.Dir? && CopyEntries(w.disk, r.legacy, tree.entries, true, r.legacy, w.hops).Some? && name != "bin"
    ensures var copy := CopyEntries(w.disk, r.legacy, tree.entries, true, r.legacy, w.hops).value;
            && (HasDir(copy, name) <==> HasDir(tree.entries, name))
            && FileOrDir(copy, name)
  {
    hide CopyEntries, Find, Materialise;
    FindCopied(w.disk, r.legacy, tree.entries, true, r.legacy, w.hops, name);
  }

  ghost predicate StagesFrom(c: Setup, w: World, r: Roots, tree: Node) {
    && tree.Dir? && NodeAt(w.disk, r.legacy) == Some(tree)
    && c.stage(r, tree) == StageTree(w, r, tree)
    && Staged(c, r, tree).Some?
  }

  /** The complete meaning of a published tree: every path in it reads as it must. */
  lemma {:induction false} StagedReadsAsExpected(c: Setup, w: World, r: Roots, tree: Node, rel: Path)
    requires StagesFrom(c, w, r, tree) && rel != []
    ensures FileAt(Staged(c, r, tree).value, Some(rel)) == Expected(w, r, tree, rel)
  {
    hide FileAt, ReadThrough, Find, CopyEntries, NoLinks, NewConfig, NewIdentity, WriteFile;
    var copy := CopyEntries(w.disk, r.legacy, tree.entries, true, r.legacy, w.hops).value;
    var configured := WriteConfig(w, r, copy).value;
    var staged := WriteIdentity(w, configured).value;
    WriteReads(staged, MARKER, Marker(1, r.legacy, r.target), rel);
    CopiedReads(w, r, tree, rel);
    CopiedReads(w, r, tree, [CONFIG]);
    CopiedReads(w, r, tree, [IDENTITY]);
    ConfigReads(w, r, copy, rel);
    ConfigReads(w, r, copy, [IDENTITY]);
    IdentityReads(w, configured, rel);
    DirsAreCopied(w, r, tree, "palace");
  }

  lemma CopiedReads(w: World, r: Roots, tree: Node, rel: Path)
    requires tree.Dir? && NodeAt(w.disk, r.legacy) == Some(tree) && rel != []
    requires CopyEntries(w.disk, r.legacy, tree.entries, true, r.legacy, w.hops).Some?
    ensures var copy := CopyEntries(w.disk, r.legacy, tree.entries, true, r.legacy, w.hops).value;
            FileAt(Dir(copy), Some(rel)) ==
            if rel[0] == "bin" then None else ReadThrough(w.disk, r.legacy + rel, w.hops)
  {
    hide FileAt, ReadThrough, Find, CopyEntries, NoLinks;
    if rel[0] == "bin" {
      BinIsLeftOut(w.disk, r.legacy, tree.entries, r.legacy, w.hops);
      ReadAtTop(CopyEntries(w.disk, r.legacy, tree.entries, true, r.legacy, w.hops).value, rel);
    } else {
      CopyPreservesReading(w.disk, r.legacy, w.hops, rel);
    }
  }

  lemma ConfigReads(w: World, r: Roots, copy: seq<Entry>, rel: Path)
    requires WriteConfig(w, r, copy).Some? && rel != []
    ensures var was := FileAt(Dir(copy), Some(rel));
            FileAt(Dir(WriteConfig(w, r, copy).value), Some(rel)) ==
            if rel == [CONFIG] && (was.Some? || HasDir(copy, "palace")) then NewConfig(w, r, was) else was
  {
    hide FileAt, Find, NewConfig, WriteFile;
    HasFileIsReadable(copy, CONFIG);
    if HasFile(copy, CONFIG) || HasDir(copy, "palace") {
      var was := if HasFile(copy, CONFIG) then Some(Find(copy, CONFIG).value.content) else None;
      WriteReads(copy, CONFIG, NewConfig(w, r, was).value, rel);
    }
  }

  lemma IdentityReads(w: World, copy: seq<Entry>, rel: Path)
    requires WriteIdentity(w, copy).Some? && rel != []
    ensures var was := FileAt(Dir(copy), Some(rel));
            FileAt(Dir(WriteIdentity(w, copy).value), Some(rel)) ==
            if rel == [IDENTITY] && was.Some? then NewIdentity(w, was.value) else was
  {
    hide FileAt, Find, NewIdentity, WriteFile;
    HasFileIsReadable(copy, IDENTITY);
    if HasFile(copy, IDENTITY) {
      WriteReads(copy, IDENTITY, NewIdentity(w, Find(copy, IDENTITY).value.content).value, rel);
    }
  }

  // ----- exactly when staging fails -----

  /** The configuration that was read is not JSON, or not an object. */
  predicate BadConfig(w: World, was: Content) {
    w.values.decode(was).None? || !w.values.decode(was).value.Object?
  }

  /**
   What makes a legacy tree impossible to stage, told from the tree and what it reads as: an
   entry that cannot be copied; a configuration that is no object, or a directory in its place
   beside a palace; an identity file that is no text; or a directory in the marker's place.
   */
  ghost predicate Unstageable(w: World, r: Roots, tree: Node)
    requires tree.Dir?
  {
    var config := ReadThrough(w.disk, r.legacy + [CONFIG], w.hops);
    var identity := ReadThrough(w.disk, r.legacy + [IDENTITY], w.hops);
    || (exists rel :: Refusal(w.disk, r.legacy, w.hops, rel))
    || (config.Some? && BadConfig(w, config.value))
    || (HasDir(tree.entries, "palace") && HasDir(tree.entries, CONFIG))
    || (identity.Some? && w.texts.decode(identity.value).None?)
    || HasDir(tree.entries, MARKER)
  }

  /** A copy has at this name a file, a directory, or nothing. */
  predicate FileOrDir(entries: seq<Entry>, name: string) {
    Find(entries, name).Some? ==> HasDir(entries, name) || HasFile(entries, name)
  }

  lemma ConfigFailsExactly(w: World, r: Roots, copy: seq<Entry>)
    requires FileOrDir(copy, CONFIG)
    ensures var was := FileAt(Dir(copy), Some([CONFIG]));
            WriteConfig(w, r, copy).None? <==>
            (was.Some? && BadConfig(w, was.value)) || (HasDir(copy, "palace") && HasDir(copy, CONFIG))
  {
    hide FileAt, Find, WriteFile;
    HasFileIsReadable(copy, CONFIG);
  }

  lemma IdentityFailsExactly(w: World, copy: seq<Entry>)
    ensures var was := FileAt(Dir(copy), Some([IDENTITY]));
            WriteIdentity(w, copy).None? <==> was.Some? && w.texts.decode(was.value).None?
  {
    hide FileAt, Find, WriteFile, InstructionMigration.Migrate;
    HasFileIsReadable(copy, IDENTITY);
  }

  lemma MarkerFailsExactly(staged: seq<Entry>, marker: Content)
    requires FileOrDir(staged, MARKER)
    ensures WriteFile(staged, MARKER, marker).None? <==> HasDir(staged, MARKER)
  {
    hide Find, WriteFile;
  }

  lemma ConfigKeepsOthers(w: World, r: Roots, copy: seq<Entry>, name: string)
    requires WriteConfig(w, r, copy).Some? && name != CONFIG
    ensures Find(WriteConfig(w, r, copy).value, name) == Find(copy, name)
  {
    hide Find, WriteFile, NewConfig;
  }

  lemma IdentityKeepsOthers(w: World, copy: seq<Entry>, name: string)
    requires WriteIdentity(w, copy).Some? && name != IDENTITY
    ensures Find(WriteIdentity(w, copy).value, name) == Find(copy, name)
  {
    hide Find, WriteFile, NewIdentity;
  }

  /** Staging fails for these reasons and for no other. */
  lemma {:induction false} StageFailsExactly(c: Setup, w: World, r: Roots, tree: Node)
    requires tree.Dir? && NodeAt(w.disk, r.legacy) == Some(tree) && WellFormed(tree)
    requires c.stage(r, tree) == StageTree(w, r, tree)
    ensures Staged(c, r, tree).None? <==> Unstageable(w, r, tree)
  {
    hide CopyEntries, Find, ReadThrough, Refusal, WellFormed, NodeAt, WriteFile, FileAt, WriteConfig, WriteIdentity, BadConfig;
    CopyFailsExactly(w.disk, r.legacy, w.hops);
    var copied := CopyEntries(w.disk, r.legacy, tree.entries, true, r.legacy, w.hops);
    if copied.Some? {
      CopiedReads(w, r, tree, [CONFIG]);
      CopiedReads(w, r, tree, [IDENTITY]);
      DirsAreCopied(w, r, tree, "palace");
      DirsAreCopied(w, r, tree, CONFIG);
      DirsAreCopied(w, r, tree, MARKER);
      ConfigFailsExactly(w, r, copied.value);
      var configured := WriteConfig(w, r, copied.value);
      if configured.Some? {
        ConfigReads(w, r, copied.value, [IDENTITY]);
        ConfigKeepsOthers(w, r, copied.value, MARKER);
        IdentityFailsExactly(w, configured.value);
        var staged := WriteIdentity(w, configured.value);
        if staged.Some? {
          IdentityKeepsOthers(w, configured.value, MARKER);
          MarkerFailsExactly(staged.value, Marker(1, r.legacy, r.target));
        }
      }
    }
  }

  // ----- what the two rewritten files say -----

  /** What a staged configuration says, next to the one it was made from. */
  ghost predicate ConfigMoved(t: PathTexts, r: Roots, before: Fields, after: Fields) {
    && after.Keys == before.Keys + {"collection_name"}
    && after["collection_name"] == (if "collection_name" in before then before["collection_name"] else Text("mempalace_drawers"))
    && (forall key :: key in before && key !in {"palace_path", "server", "federation"} ==> after[key] == before[key])
    && ("palace_path" in before ==> PathMoved(t, r, before["palace_path"], after["palace_path"]))
    && ("server" in before ==>
          if before["server"].Object? then
            var was, now := before["server"].fields, after["server"];
            && now.Object? && now.fields.Keys == was.Keys
            && (forall key :: key in was && key != "token_file" ==> now.fields[key] == was[key])
            && ("token_file" in was ==> PathMoved(t, r, was["token_file"], now.fields["token_file"]))
          else after["server"] == before["server"])
    && ("federation" in before ==> FederationMoved(before["federation"], after["federation"]))
  }

  /** A text is remapped from the old place to the new one; anything else is no path. */
  predicate PathMoved(t: PathTexts, r: Roots, before: Value, after: Value) {
    after == if before.Text? then Text(Remap(t, r, before.s)) else before
  }

  /** Each remote in its place, with a legacy name of its token variable renamed. */
  ghost predicate FederationMoved(before: Value, after: Value) {
    if before.Object? && "remotes" in before.fields && before.fields["remotes"].Array? then
      var was := before.fields["remotes"].items;
      && after.Object? && after.fields.Keys == before.fields.Keys
      && (forall key :: key in before.fields && key != "remotes" ==> after.fields[key] == before.fields[key])
      && after.fields["remotes"].Array? && |after.fields["remotes"].items| == |was|
      && (forall i :: 0 <= i < |was| ==> RemoteMoved(was[i], after.fields["remotes"].items[i]))
    else after == before
  }

  predicate RemoteMoved(before: Value, after: Value) {
    if && before.Object? && "token_env" in before.fields && before.fields["token_env"].Text?
       && "MEMPALACE_" <= before.fields["token_env"].s
    then after == Object(before.fields["token_env" := Text("AGENTPALACE_" + before.fields["token_env"].s[10..])])
    else after == before
  }

  lemma FederationIsMoved(fields: Fields)
    requires "federation" in fields
    ensures FederationMoved(fields["federation"], RenameRemotes(fields)["federation"])
  {
  }

  lemma {:induction false} ConfigIsMoved(w: World, r: Roots, before: Fields)
    ensures var after := StagedConfig(RemapFor(w, r), Object(before));
            after.Some? && after.value.Object? && ConfigMoved(w.paths, r, before, after.value.fields)
  {
    var remap := RemapFor(w, r);
    assert forall s :: remap(s) == Remap(w.paths, r, s);
    ConfigKeepsTheRest(remap, Object(before));
    if "server" in before {
      ServerKeepsTheRest(remap, Object(before));
    }
    var moved := RemapTokenFile(remap, RemapAt(remap, WithCollection(before), "palace_path"));
    if "federation" in before {
      assert moved["federation"] == before["federation"];
      FederationIsMoved(moved);
    }
    hide Remap, RemapTokenFile, RenameRemotes, FederationMoved;
  }

  /**
   The staged `config.json`, read as JSON: made from the legacy one it says the same with its
   paths moved and its token variables renamed; made from nothing, for a palace without one,
   it names the legacy collection and says nothing else.
   */
  lemma {:induction false} StagedConfigSays(c: Setup, w: World, r: Roots, tree: Node)
    requires StagesFrom(c, w, r, tree) && RoundTrips(w.values)
    ensures var was := ReadThrough(w.disk, r.legacy + ["config.json"], w.hops);
            var now := FileAt(Staged(c, r, tree).value, Some(["config.json"]));
            if was.None? && !HasDir(tree.entries, "palace") then now.None?
            else
              && now.Some? && w.values.decode(now.value).Some? && w.values.decode(now.value).value.Object?
              && var after := w.values.decode(now.value).value.fields;
                 if was.Some? then
                   && w.values.decode(was.value).Some? && w.values.decode(was.value).value.Object?
                   && ConfigMoved(w.paths, r, w.values.decode(was.value).value.fields, after)
                 else after == map["collection_name" := Text("mempalace_drawers")]
  {
    hide FileAt, ReadThrough, Staged, StageTree, ConfigMoved, StagedConfig;
    var was := ReadThrough(w.disk, r.legacy + [CONFIG], w.hops);
    StagedReadsAsExpected(c, w, r, tree, [CONFIG]);
    if was.Some? || HasDir(tree.entries, "palace") {
      NewConfigIsMade(c, w, r, tree);
      var from := if was.Some? then w.values.decode(was.value) else Some(Object(map[]));
      assert w.values.decode(NewConfig(w, r, was).value) == StagedConfig(RemapFor(w, r), from.value);
      NotAnObject(RemapFor(w, r), from.value);
      ConfigIsMoved(w, r, from.value.fields);
      EmptyConfig(RemapFor(w, r));
    }
  }

  /** A tree that was staged had a configuration that could be rewritten. */
  lemma NewConfigIsMade(c: Setup, w: World, r: Roots, tree: Node)
    requires StagesFrom(c, w, r, tree)
    requires ReadThrough(w.disk, r.legacy + [CONFIG], w.hops).Some? || HasDir(tree.entries, "palace")
    ensures NewConfig(w, r, ReadThrough(w.disk, r.legacy + [CONFIG], w.hops)).Some?
  {
    hide FileAt, ReadThrough, Find, CopyEntries, NewConfig, NewIdentity, WriteFile;
    CopiedReads(w, r, tree, [CONFIG]);
    DirsAreCopied(w, r, tree, "palace");
    HasFileIsReadable(CopyEntries(w.disk, r.legacy, tree.entries, true, r.legacy, w.hops).value, CONFIG);
  }

  lemma NotAnObject(remap: string -> string, config: Value)
    ensures StagedConfig(remap, config).Some? <==> config.Object?
  {
  }

  lemma EmptyConfig(remap: string -> string)
    ensures StagedConfig(remap, Object(map[])) == Some(Object(map["collection_name" := Text("mempalace_drawers")]))
  {
  }

  /** The staged `identity.txt`, read as text, is the legacy one migrated like an instruction file. */
  lemma {:induction false} StagedIdentitySays(c: Setup, w: World, r: Roots, tree: Node)
    requires StagesFrom(c, w, r, tree) && RoundTrips(w.texts)
    ensures var was := ReadThrough(w.disk, r.legacy + ["identity.txt"], w.hops);
            var now := FileAt(Staged(c, r, tree).value, Some(["identity.txt"]));
            if was.None? then now.None?
            else
              && w.texts.decode(was.value).Some? && now.Some?
              && w.texts.decode(now.value) == Some(InstructionMigration.Migrate(w.alnum, w.texts.decode(was.value).value))
  {
    hide FileAt, ReadThrough, Staged, StageTree, InstructionMigration.Migrate;
    StagedReadsAsExpected(c, w, r, tree, [IDENTITY]);
    if ReadThrough(w.disk, r.legacy + [IDENTITY], w.hops).Some? {
      NewIdentityIsMade(c, w, r, tree);
    }
  }

  lemma NewIdentityIsMade(c: Setup, w: World, r: Roots, tree: Node)
    requires StagesFrom(c, w, r, tree)
    requires ReadThrough(w.disk, r.legacy + [IDENTITY], w.hops).Some?
    ensures NewIdentity(w, ReadThrough(w.disk, r.legacy + [IDENTITY], w.hops).value).Some?
  {
    hide FileAt, ReadThrough, Find, CopyEntries, NewConfig, NewIdentity, WriteFile;
    var copy := CopyEntries(w.disk, r.legacy, tree.entries, true, r.legacy, w.hops).value;
    CopiedReads(w, r, tree, [IDENTITY]);
    ConfigReads(w, r, copy, [IDENTITY]);
    HasFileIsReadable(WriteConfig(w, r, copy).value, IDENTITY);
  }

  /** So no path of the staged configuration leads into the legacy home. */
  lemma StagedConfigLeavesTheOldHome(t: PathTexts, r: Roots, before: Fields, after: Fields)
    requires FaithfulPaths(t) && Proper(r.target) && Apart(r.legacy, r.target)
    requires ConfigMoved(t, r, before, after)
    ensures "palace_path" in before ==> Outside(t, r.legacy, after["palace_path"])
    ensures "server" in before && before["server"].Object? && "token_file" in before["server"].fields ==>
              Outside(t, r.legacy, after["server"].fields["token_file"])
  {
    hide FaithfulPaths, Proper, Apart, Inside, Remap, FederationMoved;
    if "palace_path" in before && before["palace_path"].Text? {
      RemapLeavesTheOldHome(t, r, before["palace_path"].s);
    }
    if "server" in before && before["server"].Object? && "token_file" in before["server"].fields {
      var was := before["server"].fields["token_file"];
      if was.Text? {
        RemapLeavesTheOldHome(t, r, was.s);
      }
    }
  }
}
