/**
 Migration of one legacy MCP registration: its command, arguments, environment and tool
 lists. `remap` stands for the rewriting of one path text from the legacy home to the new.
 */
module EntryMigration {
  import opened Options
  import opened Json

  type Fields = map<string, Value>

  const LEGACY_PREFIX := "MEMPALACE_"
  const LEGACY_PALACE_PATH := "MEMPAL_PALACE_PATH"
  const NEW_PREFIX := "AGENTPALACE_"
  const CONFIG_DIR := "AGENTPALACE_CONFIG_DIR"

  // ----- environment -----

  /** What follows the legacy prefix of a legacy key. */
  function Suffix(key: string): Option<string> {
    if LEGACY_PREFIX <= key then Some(key[|LEGACY_PREFIX|..])
    else if key == LEGACY_PALACE_PATH then Some("PALACE_PATH")
    else None
  }

  predicate Legacy(key: string) {
    Suffix(key).Some?
  }

  function Renamed(key: string): (r: string)
    ensures Legacy(key) ==> NEW_PREFIX <= r
    ensures !Legacy(key) ==> r == key
  {
    if Legacy(key) then NEW_PREFIX + Suffix(key).value else key
  }

  predicate EndsWith(s: string, end: string) {
    |end| <= |s| && s[|s| - |end|..] == end
  }

  function RemapValue(remap: string -> string, v: Value): Value {
    if v.Text? then Text(remap(v.s)) else v
  }

  /** A legacy value that is a path is remapped with its key. */
  function RenamedValue(remap: string -> string, key: string, v: Value): Value {
    if Legacy(key) && (EndsWith(Suffix(key).value, "_DIR") || EndsWith(Suffix(key).value, "_PATH"))
    then RemapValue(remap, v) else v
  }

  ghost predicate Injective(env: Fields) {
    forall a, b :: a in env && b in env && Renamed(a) == Renamed(b) ==> a == b
  }

  /** The environment with every key renamed. */
  ghost predicate IsRenaming(remap: string -> string, env: Fields, result: Fields) {
    && (forall k :: k in env ==> Renamed(k) in result && result[Renamed(k)] == RenamedValue(remap, k, env[k]))
    && (forall k :: k in result ==> exists o :: o in env && Renamed(o) == k)
  }

  lemma NewKeysAreNotLegacy(key: string)
    requires NEW_PREFIX <= key
    ensures !Legacy(key)
  {
    assert key[0] == NEW_PREFIX[0] == 'A';
    assert LEGACY_PREFIX[0] == LEGACY_PALACE_PATH[0] == 'M';
  }

  /** The keys in `done` are renamed with their values, the others are as they were. */
  ghost predicate ValuesAt(remap: string -> string, env: Fields, done: set<string>, result: Fields) {
    forall k :: k in env ==>
      if k in done then Renamed(k) in result && result[Renamed(k)] == RenamedValue(remap, k, env[k])
      else k in result && result[k] == env[k]
  }

  ghost predicate NothingElse(env: Fields, done: set<string>, result: Fields) {
    forall k :: k in result ==> (k in env && k !in done) || (exists o :: o in done && Renamed(o) == k)
  }

  ghost predicate NoClash(env: Fields, done: set<string>) {
    forall a, b :: a in done && b in env && Renamed(a) == (if b in done then Renamed(b) else b) ==> a == b
  }

  /** The state of the renaming loop when the keys in `done` have been seen. */
  ghost predicate Renaming(remap: string -> string, env: Fields, done: set<string>, result: Fields) {
    done <= env.Keys && ValuesAt(remap, env, done, result) && NothingElse(env, done, result) && NoClash(env, done)
  }

  /** What one turn of the loop does to the environment. */
  function Step(remap: string -> string, result: Fields, key: string): Fields
    requires key in result
  {
    if Legacy(key) then (result - {key})[Renamed(key) := RenamedValue(remap, key, result[key])] else result
  }

  lemma StepValues(remap: string -> string, env: Fields, done: set<string>, result: Fields, key: string, k: string)
    requires Renaming(remap, env, done, result) && key in env && key !in done && key in result && k in env
    requires Legacy(key) ==> Renamed(key) !in result
    ensures var next := Step(remap, result, key);
            if k in done + {key} then Renamed(k) in next && next[Renamed(k)] == RenamedValue(remap, k, env[k])
            else k in next && next[k] == env[k]
  {
    hide RenamedValue, Suffix, Renamed;
    if k in done {
      assert Renamed(k) in result;
      assert Renamed(k) != key;
    } else if k == key {
      NotLegacyKept(remap, key, env[key]);
    }
  }

  lemma StepKeys(remap: string -> string, env: Fields, done: set<string>, result: Fields, key: string, k: string)
    requires Renaming(remap, env, done, result) && key in env && key !in done && key in result
    requires k in Step(remap, result, key)
    ensures (k in env && k !in done + {key}) || (exists o :: o in done + {key} && Renamed(o) == k)
  {
    hide RenamedValue, Suffix, Renamed;
    NotLegacyKept(remap, key, env[key]);
    if k == Renamed(key) {
      assert key in done + {key};
    } else {
      assert k in result;
      if !(k in env && k !in done) {
        var o :| o in done && Renamed(o) == k;
        assert o in done + {key};
      }
    }
  }

  lemma StepApart(remap: string -> string, env: Fields, done: set<string>, result: Fields, key: string, a: string, b: string)
    requires Renaming(remap, env, done, result) && key in env && key !in done
    requires Legacy(key) ==> Renamed(key) !in result
    requires var more := done + {key};
             a in more && b in env && Renamed(a) == (if b in more then Renamed(b) else b)
    ensures a == b
  {
    hide RenamedValue, Suffix, Renamed;
    NotLegacyKept(remap, key, env[key]);
    assert a in done ==> Renamed(a) in result;
    assert b in done ==> Renamed(b) in result;
    assert b !in done ==> b in result;
  }

  lemma {:induction false} RenamingStep(remap: string -> string, env: Fields, done: set<string>, result: Fields, key: string)
    requires Renaming(remap, env, done, result) && key in env && key !in done
    requires Legacy(key) ==> Renamed(key) !in result
    ensures key in result
    ensures Renaming(remap, env, done + {key}, Step(remap, result, key))
  {
    assert key in result;
    hide RenamedValue, Suffix, Renamed, Step, ValuesAt, NothingElse, NoClash;
    ValuesStep(remap, env, done, result, key);
    KeysStep(remap, env, done, result, key);
    ClashStep(remap, env, done, result, key);
  }

  lemma {:induction false} ValuesStep(remap: string -> string, env: Fields, done: set<string>, result: Fields, key: string)
    requires Renaming(remap, env, done, result) && key in env && key !in done && key in result
    requires Legacy(key) ==> Renamed(key) !in result
    ensures ValuesAt(remap, env, done + {key}, Step(remap, result, key))
  {
    hide RenamedValue, Suffix, Renamed, Step, Renaming;
    var more, next := done + {key}, Step(remap, result, key);
    forall k | k in env
      ensures if k in more then Renamed(k) in next && next[Renamed(k)] == RenamedValue(remap, k, env[k])
              else k in next && next[k] == env[k]
    {
      StepValues(remap, env, done, result, key, k);
    }
  }

  lemma {:induction false} KeysStep(remap: string -> string, env: Fields, done: set<string>, result: Fields, key: string)
    requires Renaming(remap, env, done, result) && key in env && key !in done && key in result
    ensures NothingElse(env, done + {key}, Step(remap, result, key))
  {
    hide RenamedValue, Suffix, Renamed, Step, Renaming;
    forall k | k in Step(remap, result, key)
      ensures (k in env && k !in done + {key}) || (exists o :: o in done + {key} && Renamed(o) == k)
    {
      StepKeys(remap, env, done, result, key, k);
    }
  }

  lemma {:induction false} ClashStep(remap: string -> string, env: Fields, done: set<string>, result: Fields, key: string)
    requires Renaming(remap, env, done, result) && key in env && key !in done
    requires Legacy(key) ==> Renamed(key) !in result
    ensures NoClash(env, done + {key})
  {
    hide RenamedValue, Suffix, Renamed, Renaming;
    var more := done + {key};
    forall a, b | a in more && b in env && Renamed(a) == (if b in more then Renamed(b) else b)
      ensures a == b
    {
      StepApart(remap, env, done, result, key, a, b);
    }
  }

  lemma NotLegacyKept(remap: string -> string, key: string, v: Value)
    ensures !Legacy(key) ==> RenamedValue(remap, key, v) == v && Renamed(key) == key
  {
  }

  /** A clash met by the loop is a clash of two original keys. */
  lemma ClashIsReal(remap: string -> string, env: Fields, done: set<string>, result: Fields, key: string)
    requires Renaming(remap, env, done, result) && key in env && key !in done
    requires Legacy(key) && Renamed(key) in result
    ensures !Injective(env)
  {
    hide RenamedValue, Suffix;
    var clash := Renamed(key);
    NewKeysAreNotLegacy(clash);
    if clash in env && clash !in done {
      assert Renamed(clash) == clash;
    } else {
      var o :| o in done && Renamed(o) == clash;
    }
  }

  /**
   The renaming loop, over the keys in any order. It succeeds exactly when no two keys are
   renamed to one, whatever the order, and then gives the whole renamed environment.
   */
  method RenameEnv(remap: string -> string, env: Fields, order: seq<string>) returns (result: Option<Fields>)
    requires forall k :: k in env <==> k in order
    requires forall i, j :: 0 <= i < j < |order| ==> order[i] != order[j]
    ensures result.Some? <==> Injective(env)
    ensures result.Some? ==> IsRenaming(remap, env, result.value)
  {
    hide RenamedValue, Suffix, Renamed, Renaming, Injective, IsRenaming;
    var fields := env;
    ghost var done: set<string> := {};
    RenamingStart(remap, env);
    for i := 0 to |order|
      invariant done == set j | 0 <= j < i :: order[j]
      invariant Renaming(remap, env, done, fields)
    {
      var key := order[i];
      assert key !in done && key in order;
      if Legacy(key) {
        var renamed := Renamed(key);
        if renamed in fields {
          ClashIsReal(remap, env, done, fields, key);
          return None;
        }
        RenamingStep(remap, env, done, fields, key);
        var value := RenamedValue(remap, key, fields[key]);
        fields := (fields - {key})[renamed := value];
      } else {
        RenamingStep(remap, env, done, fields, key);
      }
      done := done + {key};
    }
    assert done == env.Keys;
    RenamingComplete(remap, env, done, fields);
    return Some(fields);
  }

  lemma RenamingStart(remap: string -> string, env: Fields)
    ensures Renaming(remap, env, {}, env)
  {
    hide RenamedValue, Suffix, Renamed;
  }

  lemma RenamingComplete(remap: string -> string, env: Fields, done: set<string>, result: Fields)
    requires Renaming(remap, env, done, result) && done == env.Keys
    ensures Injective(env) && IsRenaming(remap, env, result)
  {
    hide RenamedValue, Suffix, Renamed;
  }

  // ----- what a renamed environment is -----

  /** There is only one: the result does not depend on the order. */
  lemma RenamingIsUnique(remap: string -> string, env: Fields, a: Fields, b: Fields)
    requires IsRenaming(remap, env, a) && IsRenaming(remap, env, b)
    ensures a == b
  {
    hide RenamedValue, Suffix, Renamed;
    forall k | k in a
      ensures k in b && a[k] == b[k]
    {
      var o :| o in env && Renamed(o) == k;
    }
    forall k | k in b
      ensures k in a
    {
      var o :| o in env && Renamed(o) == k;
    }
  }

  lemma NoLegacyKeyRemains(remap: string -> string, env: Fields, result: Fields)
    requires IsRenaming(remap, env, result)
    ensures forall k :: k in result ==> !Legacy(k)
  {
    forall k | k in result
      ensures !Legacy(k)
    {
      var o :| o in env && Renamed(o) == k;
      if Legacy(o) {
        NewKeysAreNotLegacy(k);
      }
    }
  }

  /** The number of entries is conserved. */
  lemma {:induction false} EntriesAreConserved(remap: string -> string, env: Fields, result: Fields)
    requires Injective(env) && IsRenaming(remap, env, result)
    ensures |result| == |env|
  {
    hide RenamedValue, Suffix, Renamed;
    assert result.Keys == set k | k in env :: Renamed(k);
    ImageSize(env.Keys);
  }

  lemma {:induction false} ImageSize(keys: set<string>)
    requires forall a, b :: a in keys && b in keys && Renamed(a) == Renamed(b) ==> a == b
    ensures |set k | k in keys :: Renamed(k)| == |keys|
  {
    hide Renamed;
    if keys == {} {
      assert (set k | k in keys :: Renamed(k)) == {};
    } else {
      var x :| x in keys;
      var rest := keys - {x};
      ImageSize(rest);
      var all, image := (set k | k in keys :: Renamed(k)), (set k | k in rest :: Renamed(k));
      assert Renamed(x) !in image;
      assert all == image + {Renamed(x)};
    }
  }

  /** Values change only by path remapping, and exactly under legacy keys that name a path. */
  lemma ValuesChangeByRemapOnly(remap: string -> string, env: Fields, result: Fields, k: string)
    requires IsRenaming(remap, env, result) && k in env
    ensures Renamed(k) in result
    ensures result[Renamed(k)] ==
            if ("MEMPALACE_" <= k && (EndsWith(k[10..], "_DIR") || EndsWith(k[10..], "_PATH"))) || k == "MEMPAL_PALACE_PATH"
            then RemapValue(remap, env[k]) else env[k]
  {
    assert EndsWith("PALACE_PATH", "_PATH");
  }

  /** Which keys are legacy, and what each becomes. */
  lemma LegacyKeys(key: string, suffix: string)
    ensures Legacy(key) <==> "MEMPALACE_" <= key || key == "MEMPAL_PALACE_PATH"
    ensures !Legacy(key) ==> Renamed(key) == key
    ensures Renamed("MEMPALACE_" + suffix) == "AGENTPALACE_" + suffix
    ensures Renamed("MEMPAL_PALACE_PATH") == "AGENTPALACE_PALACE_PATH"
  {
    assert ("MEMPALACE_" + suffix)[10..] == suffix;
    assert "MEMPAL_PALACE_PATH"[6] != "MEMPALACE_"[6];
  }

  /** The one renamed environment, as a value. */
  function RenamedEnv(remap: string -> string, env: Fields): (result: Fields)
    requires Injective(env)
    ensures IsRenaming(remap, env, result)
  {
    hide RenamedValue, Suffix, Renamed;
    map k | k in env :: Renamed(k) := RenamedValue(remap, k, env[k])
  }
}
