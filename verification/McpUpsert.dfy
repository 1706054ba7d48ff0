/**
 Upsert of one MCP server entry into a client's JSON document.
 */
module McpUpsert {
  import opened Options
  import opened Json

  type Fields = map<string, Value>

  /** Settings that a client may have changed and that an update therefore leaves alone. */
  predicate Kept(key: string) {
    key == "env" || key == "environment" || key == "args"
  }

  predicate NonEmptyArray(v: Value) {
    v.Array? && v.items != []
  }

  /** The value of one key after the update: existing settings win, and a command array keeps its tail. */
  function Updated(key: string, present: Option<Value>, update: Value): Value {
    if Kept(key) && present.Some? then present.value
    else if key == "command" && present.Some? && NonEmptyArray(present.value) && NonEmptyArray(update) then
      Array(present.value.items[0 := update.items[0]])
    else update
  }

  function MergeFields(present: Fields, updates: Fields): (merged: Fields)
    ensures merged.Keys == present.Keys + updates.Keys
  {
    map key | key in present.Keys + updates.Keys ::
      if key in updates then Updated(key, Get(present, key), updates[key]) else present[key]
  }

  /** The server entry after the update; when either is not an object, the update replaces it. */
  function MergeServer(present: Value, entry: Value): Value {
    if present.Object? && entry.Object? then Object(MergeFields(present.fields, entry.fields)) else entry
  }

  function RootFields(existing: Option<Value>): Fields {
    if existing.Some? && existing.value.Object? then existing.value.fields else map[]
  }

  predicate HasSection(root: Fields, section: string) {
    section in root && root[section].Object?
  }

  function Servers(root: Fields, section: string): Fields {
    if HasSection(root, section) then root[section].fields else map[]
  }

  /** The document after the upsert. */
  function Upserted(existing: Option<Value>, section: string, name: string, entry: Value): Value {
    var root := RootFields(existing);
    var servers := Servers(root, section);
    var present := if name in servers then servers[name] else Object(map[]);
    Object(root[section := Object(servers[name := MergeServer(present, entry)])])
  }

  // ----- merging -----

  lemma UpdatedTwice(key: string, present: Option<Value>, update: Value)
    ensures Updated(key, Some(Updated(key, present, update)), update) == Updated(key, present, update)
  {
    if key == "command" && present.Some? && NonEmptyArray(present.value) && NonEmptyArray(update) {
      var once := present.value.items[0 := update.items[0]];
      assert once[0 := update.items[0]] == once;
    } else if NonEmptyArray(update) {
      assert update.items[0 := update.items[0]] == update.items;
    }
  }

  lemma MergeTwice(present: Value, entry: Value)
    ensures MergeServer(MergeServer(present, entry), entry) == MergeServer(present, entry)
  {
    if present.Object? && entry.Object? {
      var once := MergeFields(present.fields, entry.fields);
      var twice := MergeFields(once, entry.fields);
      forall key | key in once.Keys
        ensures twice[key] == once[key]
      {
        if key in entry.fields {
          UpdatedTwice(key, Get(present.fields, key), entry.fields[key]);
        }
      }
      assert twice == once;
    } else {
      MergeSelf(entry);
    }
  }

  /** Merging an entry into itself changes nothing. */
  lemma MergeSelf(entry: Value)
    ensures MergeServer(entry, entry) == entry
  {
    if entry.Object? {
      var merged := MergeFields(entry.fields, entry.fields);
      forall key | key in merged.Keys
        ensures merged[key] == entry.fields[key]
      {
        if NonEmptyArray(entry.fields[key]) {
          var items := entry.fields[key].items;
          assert items[0 := items[0]] == items;
        }
      }
      assert merged == entry.fields;
    }
  }

  // ----- the code -----

  method MergeLoop(present: Fields, updates: Fields) returns (merged: Fields)
    ensures merged == MergeFields(present, updates)
  {
    merged := present;
    var left := updates.Keys;
    while left != {}
      invariant left <= updates.Keys
      invariant merged.Keys == present.Keys + (updates.Keys - left)
      invariant forall key :: key in merged ==>
                  merged[key] == if key in updates && key !in left
                                 then Updated(key, Get(present, key), updates[key]) else present[key]
      decreases left
    {
      var key :| key in left;
      left := left - {key};
      var value := updates[key];
      if Kept(key) && key in merged {
        continue;
      }
      if key == "command" && key in merged && NonEmptyArray(merged[key]) && NonEmptyArray(value) {
        merged := merged[key := Array(merged[key].items[0 := value.items[0]])];
        continue;
      }
      merged := merged[key := value];
    }
    assert merged == MergeFields(present, updates);
  }

  /**
   `upsert_mcp_entry`: the new document, and a change reported exactly when it differs from
   the document that was there.
   */
  method UpsertMcpEntry(existing: Option<Value>, section: string, name: string, entry: Value)
    returns (document: Value, changed: bool)
    ensures document == Upserted(existing, section, name, entry)
    ensures changed <==> existing != Some(document)
  {
    var root := RootFields(existing);
    var hadObject := HasSection(root, section);
    if !hadObject {
      root := root[section := Object(map[])];
    }
    changed := !hadObject;
    ghost var first := RootFields(existing);
    var servers := root[section].fields;
    assert servers == Servers(first, section);
    MergeSelf(entry);
    if !(name in servers && servers[name] == entry) {
      var merged := if name in servers then servers[name] else Object(map[]);
      if merged.Object? && entry.Object? {
        var fields := MergeLoop(merged.fields, entry.fields);
        merged := Object(fields);
      } else {
        merged := entry;
      }
      if name in servers && servers[name] == merged {
        assert servers[name := merged] == servers;
        assert root[section := Object(servers)] == root;
        document := Object(root);
        Signal(existing, section, name, entry);
        return;
      }
      servers := servers[name := merged];
      root := root[section := Object(servers)];
      changed := true;
    } else {
      assert servers[name := entry] == servers;
      assert root[section := Object(servers)] == root;
    }
    document := Object(root);
    assert root == first[section := Object(Servers(first, section)[name := servers[name]])];
    Signal(existing, section, name, entry);
  }

  /** The document is unchanged exactly when the section was there and held the merged entry already. */
  lemma Signal(existing: Option<Value>, section: string, name: string, entry: Value)
    ensures var root := RootFields(existing);
            var servers := Servers(root, section);
            existing == Some(Upserted(existing, section, name, entry)) <==>
            HasSection(root, section) && name in servers && servers[name] == MergeServer(servers[name], entry)
  {
    hide MergeServer;
    var root := RootFields(existing);
    var servers := Servers(root, section);
    var result := Upserted(existing, section, name, entry);
    if HasSection(root, section) && name in servers && servers[name] == MergeServer(servers[name], entry) {
      assert servers[name := servers[name]] == servers;
      assert root[section := root[section]] == root;
    }
    if existing == Some(result) {
      assert result.fields[section].fields[name] == servers[name];
    }
  }

  // ----- what an upsert guarantees -----

  /** A second upsert of the same entry changes nothing. */
  lemma UpsertIsIdempotent(existing: Option<Value>, section: string, name: string, entry: Value)
    ensures var once := Upserted(existing, section, name, entry);
            Upserted(Some(once), section, name, entry) == once
  {
    hide MergeServer;
    var root := RootFields(existing);
    var servers := Servers(root, section);
    var present := if name in servers then servers[name] else Object(map[]);
    MergeTwice(present, entry);
    var merged := MergeServer(present, entry);
    assert servers[name := merged][name := merged] == servers[name := merged];
    var section' := Object(servers[name := merged]);
    assert root[section := section'][section := section'] == root[section := section'];
  }

  /** Every other key of an object document and every sibling server of an object section is kept. */
  lemma UpsertKeepsTheRest(existing: Option<Value>, section: string, name: string, entry: Value)
    ensures var root := RootFields(existing);
            var after := Upserted(existing, section, name, entry);
            && after.Object? && after.fields.Keys == root.Keys + {section}
            && (forall key :: key in root && key != section ==> after.fields[key] == root[key])
            && after.fields[section].Object?
            && after.fields[section].fields.Keys == Servers(root, section).Keys + {name}
            && (forall other :: other in Servers(root, section) && other != name ==>
                  after.fields[section].fields[other] == Servers(root, section)[other])
  {
    hide MergeServer;
  }

  /**
   Of an existing object entry, arguments and environment are kept whatever they are, a
   nonempty command array keeps all but its first item when the update has one too, and keys
   the update does not mention are kept; every other updated key takes the updated value.
   */
  lemma UpsertKeepsSettings(existing: Option<Value>, section: string, name: string, entry: Value)
    requires entry.Object? && name in Servers(RootFields(existing), section)
    requires Servers(RootFields(existing), section)[name].Object?
    ensures var before := Servers(RootFields(existing), section)[name].fields;
            var after := Upserted(existing, section, name, entry).fields[section].fields[name];
            && after.Object? && after.fields.Keys == before.Keys + entry.fields.Keys
            && (forall key :: key in before && (key in {"env", "environment", "args"} || key !in entry.fields) ==>
                  after.fields[key] == before[key])
            && (forall key :: key in entry.fields && key !in before ==> after.fields[key] == entry.fields[key])
            && (forall key :: key in entry.fields && key in before && key !in {"env", "environment", "args", "command"} ==>
                  after.fields[key] == entry.fields[key])
            && ("command" in before && "command" in entry.fields ==>
                  if NonEmptyArray(before["command"]) && NonEmptyArray(entry.fields["command"]) then
                    && NonEmptyArray(after.fields["command"])
                    && after.fields["command"].items[0] == entry.fields["command"].items[0]
                    && after.fields["command"].items[1..] == before["command"].items[1..]
                  else after.fields["command"] == entry.fields["command"])
  {
  }

  /**
   A server that was not there, or whose entry is no object, is registered by exactly the
   entry given; so is every server by an entry that is no object.
   */
  lemma NewServerIsTheEntry(existing: Option<Value>, section: string, name: string, entry: Value)
    requires var servers := Servers(RootFields(existing), section);
             name !in servers || !servers[name].Object? || !entry.Object?
    ensures Upserted(existing, section, name, entry).fields[section].fields[name] == entry
  {
    if entry.Object? {
      assert MergeFields(map[], entry.fields) == entry.fields;
    }
  }

  /** What counts as the document and its section: a root or a section that is no object is replaced by an empty one. */
  lemma StartsFromObjects(existing: Option<Value>, section: string)
    ensures RootFields(existing) == if existing.Some? && existing.value.Object? then existing.value.fields else map[]
    ensures Servers(RootFields(existing), section) ==
            if existing.Some? && existing.value.Object? && section in existing.value.fields
               && existing.value.fields[section].Object?
            then existing.value.fields[section].fields else map[]
  {
  }
}
