/**
 The migration as the program runs it: methods that read and change the disk step by step.

 `trace` records the disk after every filesystem call, writes to temporary files and
 directories included. Each method is proved to make exactly the durable steps of its
 plan, and to pass through no state that the plan does not pass through, so the safety
 and recovery theorems hold of a run cut off after any call.
 */
module MigrationRun {
  import opened Options
  import opened FileTree
  import opened MigrationPlan
  import opened MigrationProgress

  lemma {:induction false} StatesAppend(a: seq<Action>, b: seq<Action>, n: Nodes)
    ensures States(a + b, n) == States(a, n) + States(b, ApplyAll(a, n))
  {
    if a == [] {
      assert a + b == b;
    } else {
      assert (a + b)[0] == a[0] && (a + b)[1..] == a[1..] + b;
      StatesAppend(a[1..], b, Apply(a[0], n));
    }
  }

  /** The trace has grown, and only by states in `allowed`. */
  ghost predicate Grown(before: seq<Nodes>, after: seq<Nodes>, allowed: set<Nodes>) {
    && before <= after
    && forall i :: |before| <= i < |after| ==> after[i] in allowed
  }

  lemma NothingDone(n: Nodes)
    ensures ApplyAll([], n) == n && States([], n) == {n}
  {
  }

  lemma GrownTwice(t0: seq<Nodes>, t1: seq<Nodes>, t2: seq<Nodes>, a: set<Nodes>, b: set<Nodes>)
    requires Grown(t0, t1, a) && Grown(t1, t2, b)
    ensures Grown(t0, t2, a + b)
  {
  }

  function Prepend(edits: seq<ClientEdit>, rest: Option<seq<ClientEdit>>): Option<seq<ClientEdit>> {
    if rest.None? then None else Some(edits + rest.value)
  }

  class Disk {
    var nodes: Nodes
    /** What the temporary file or directory of the current step holds. */
    var scratch: Option<Node>
    ghost var trace: seq<Nodes>

    // ----- filesystem calls -----

    method WriteScratch(node: Node)
      modifies this
      ensures nodes == old(nodes) && scratch == Some(node) && trace == old(trace) + [nodes]
    {
      scratch := Some(node);
      trace := trace + [nodes];
    }

    method DropScratch()
      modifies this
      ensures nodes == old(nodes) && scratch == None && trace == old(trace) + [nodes]
    {
      scratch := None;
      trace := trace + [nodes];
    }

    /** Rename the temporary file or directory into place. */
    method RenameScratch(p: Path)
      requires scratch.Some?
      modifies this
      ensures nodes == old(nodes)[p := old(scratch).value] && scratch == None && trace == old(trace) + [nodes]
    {
      nodes := nodes[p := scratch.value];
      scratch := None;
      trace := trace + [nodes];
    }

    method Rename(p: Path, q: Path)
      requires p in nodes
      modifies this
      ensures nodes == (old(nodes) - {p})[q := old(nodes)[p]] && scratch == old(scratch) && trace == old(trace) + [nodes]
    {
      nodes := (nodes - {p})[q := nodes[p]];
      trace := trace + [nodes];
    }

    method CopyFile(p: Path, q: Path)
      requires p in nodes
      modifies this
      ensures nodes == old(nodes)[q := old(nodes)[p]] && scratch == old(scratch) && trace == old(trace) + [nodes]
    {
      nodes := nodes[q := nodes[p]];
      trace := trace + [nodes];
    }

    // ----- the migration -----

    /** Copy, rewrite and mark the legacy tree in a staging directory that no one else reads. */
    method Stage(c: Setup, r: Roots) returns (ok: bool)
      requires r.legacy in nodes
      modifies this
      ensures nodes == old(nodes)
      ensures ok <==> Staged(c, r, nodes[r.legacy]).Some?
      ensures ok ==> scratch == Staged(c, r, nodes[r.legacy])
      ensures Grown(old(trace), trace, {nodes})
    {
      var drafts := c.drafts(r, nodes[r.legacy]);
      for i := 0 to |drafts|
        invariant nodes == old(nodes)
        invariant Grown(old(trace), trace, {nodes})
      {
        WriteScratch(drafts[i]);
      }
      var copy := c.stage(r, nodes[r.legacy]);
      if copy.None? || !copy.value.Dir? {
        DropScratch();
        return false;
      }
      WriteScratch(copy.value);
      var marked := WriteFile(copy.value.entries, MARKER, Marker(1, r.legacy, r.target));
      if marked.None? {
        DropScratch();
        return false;
      }
      WriteScratch(Dir(marked.value));
      return true;
    }

    method MigrateData(c: Setup, r: Roots) returns (ok: bool)
      modifies this
      ensures var plan := MigratePlan(c, old(nodes), r);
              && ok == plan.ok
              && nodes == ApplyAll(plan.actions, old(nodes))
              && Grown(old(trace), trace, States(plan.actions, old(nodes)))
    {
      ghost var plan := MigratePlan(c, nodes, r);
      ghost var n0 := nodes;
      if !Validate(c, nodes, r) {
        return false;
      }
      if r.legacy !in nodes {
        return true;
      }
      if r.target !in nodes {
        var staged := Stage(c, r);
        if !staged {
          return false;
        }
        ghost var publish := Publish(r, scratch.value);
        assert plan.actions == [publish, Retire(r)];
        assert plan.actions[1..] == [Retire(r)] && plan.actions[1..][1..] == [];
        assert States(plan.actions, n0) == {n0} + States([Retire(r)], Apply(publish, n0));
        assert States([Retire(r)], Apply(publish, n0)) ==
               {Apply(publish, n0)} + States([], Apply(Retire(r), Apply(publish, n0)));
        ApplyTwo(publish, Retire(r), n0);
        RenameScratch(r.target);
        assert nodes == Apply(publish, n0);
      } else {
        assert plan.actions == [Retire(r)] && plan.actions[1..] == [];
        assert States(plan.actions, n0) == {n0} + States([], Apply(Retire(r), n0));
        ApplyTwo(Retire(r), Retire(r), n0);
      }
      Rename(r.legacy, Backup(r.legacy));
      return true;
    }

    method BackupAndWrite(e: ClientEdit)
      requires e.path in nodes
      modifies this
      ensures var plan := EditPlan(old(nodes), e);
              && nodes == ApplyAll(plan, old(nodes))
              && Grown(old(trace), trace, States(plan, old(nodes)))
    {
      ghost var plan := EditPlan(nodes, e);
      ghost var n0 := nodes;
      ghost var persist := Persist(e.path, e.content);
      ApplyTwo(persist, persist, n0);
      ApplyTwo(SaveOriginal(e.path), persist, n0);
      if Backup(e.path) !in nodes {
        assert plan == [SaveOriginal(e.path), persist];
        assert plan[1..] == [persist] && plan[1..][1..] == [];
        assert States(plan, n0) == {n0} + States([persist], Apply(SaveOriginal(e.path), n0));
        CopyFile(e.path, Backup(e.path));
      } else {
        assert plan == [persist] && plan[1..] == [];
      }
      ghost var n1 := nodes;
      assert States([persist], n1) == {n1} + States([], Apply(persist, n1)) by {
        assert [persist][1..] == [];
      }
      WriteScratch(File(e.content));
      RenameScratch(e.path);
    }

    /** Read every client document and decide what to write, before anything is changed. */
    method ClientEdits(c: Setup) returns (edits: Option<seq<ClientEdit>>)
      ensures edits == Edits(c, c.clients, nodes)
    {
      var found: seq<ClientEdit> := [];
      assert c.clients[0..] == c.clients;
      ghost var all := Edits(c, c.clients, nodes);
      assert all.Some? ==> [] + all.value == all.value;
      for i := 0 to |c.clients|
        invariant Edits(c, c.clients, nodes) == Prepend(found, Edits(c, c.clients[i..], nodes))
      {
        var p := c.clients[i];
        assert c.clients[i..][0] == p && c.clients[i..][1..] == c.clients[i + 1..];
        if p in nodes {
          var edit := c.rewrite(p, nodes[p]);
          if edit.Refuse? {
            return None;
          }
          if edit.Rewrite? {
            var rest := Edits(c, c.clients[i + 1..], nodes);
            assert rest.Some? ==> found + ([ClientEdit(p, edit.content)] + rest.value)
                                  == found + [ClientEdit(p, edit.content)] + rest.value;
            found := found + [ClientEdit(p, edit.content)];
          }
        }
      }
      assert c.clients[|c.clients|..] == [] && found + [] == found;
      return Some(found);
    }

    method WriteEdits(edits: seq<ClientEdit>)
      requires forall i :: 0 <= i < |edits| ==> edits[i].path in nodes
      modifies this
      ensures nodes == ApplyAll(EditsPlan(old(nodes), edits), old(nodes))
      ensures Grown(old(trace), trace, States(EditsPlan(old(nodes), edits), old(nodes)))
    {
      hide States, ApplyAll, EditPlan;
      ghost var n0 := nodes;
      ghost var plan := EditsPlan(n0, edits);
      NothingDone(n0);
      ghost var done: seq<Action> := [];
      assert edits[0..] == edits;
      assert [] + plan == plan;
      for i := 0 to |edits|
        invariant plan == done + EditsPlan(nodes, edits[i..])
        invariant nodes == ApplyAll(done, n0)
        invariant Grown(old(trace), trace, States(plan, n0))
        invariant forall j :: 0 <= j < |edits| ==> edits[j].path in nodes
      {
        ghost var n := nodes;
        ghost var t := trace;
        ghost var first := EditPlan(n, edits[i]);
        ghost var rest := EditsPlan(ApplyAll(first, n), edits[i + 1..]);
        assert edits[i..][0] == edits[i] && edits[i..][1..] == edits[i + 1..];
        assert done + (first + rest) == (done + first) + rest;
        StatesAppend(done, first + rest, n0);
        StatesAppend(first, rest, n);
        ApplyAllAppend(done, first, n0);
        BackupAndWrite(edits[i]);
        GrownTwice(old(trace), t, trace, States(plan, n0), States(first, n));
        assert States(plan, n0) + States(first, n) == States(plan, n0);
        EditPlanKeepsPaths(n, edits[i]);
        done := done + first;
      }
      assert edits[|edits|..] == [];
      assert done + [] == done;
    }

    /** The home, then the clients. */
    method MigrateHome(c: Setup, edits: seq<ClientEdit>) returns (ok: bool)
      requires c.home.legacy != c.home.target && c.home.target != Backup(c.home.legacy)
      requires forall i :: 0 <= i < |edits| ==> edits[i].path in nodes && edits[i].path !in Places(c.home)
      modifies this
      ensures var plan := HomePlan(c, old(nodes), edits);
              && ok == plan.ok
              && nodes == ApplyAll(plan.actions, old(nodes))
              && Grown(old(trace), trace, States(plan.actions, old(nodes)))
    {
      ghost var n := nodes;
      ghost var home := MigratePlan(c, n, c.home);
      ok := MigrateData(c, c.home);
      if ok {
        ghost var n1 := nodes;
        ghost var t1 := trace;
        MoveFrame(c, c.home, n);
        forall i | 0 <= i < |edits|
          ensures edits[i].path in n1
        {
          assert SameAt(n, n1, edits[i].path);
        }
        WriteEdits(edits);
        ghost var last := EditsPlan(n1, edits);
        StatesAppend(home.actions, last, n);
        ApplyAllAppend(home.actions, last, n);
        GrownTwice(old(trace), t1, trace, States(home.actions, n), States(last, n1));
      }
    }

    /** The cache, if this run moves it, then the home and the clients. */
    method MigrateAll(c: Setup, f: Flags, edits: seq<ClientEdit>) returns (ok: bool)
      requires Layout(c) && Preflight(c) && Edits(c, c.clients, nodes) == Some(edits)
      modifies this
      ensures var plan := WorkPlan(c, f, old(nodes), edits);
              && ok == plan.ok
              && nodes == ApplyAll(plan.actions, old(nodes))
              && Grown(old(trace), trace, States(plan.actions, old(nodes)))
    {
      ghost var n := nodes;
      ghost var first := CachePlan(c, f, n);
      var cache := ActiveCache(c, f, nodes);
      ok := true;
      if cache.Some? {
        ok := MigrateData(c, cache.value);
      }
      if ok {
        ghost var n1 := nodes;
        ghost var t1 := trace;
        ClientsStillThere(c, f, n, edits);
        ok := MigrateHome(c, edits);
        ghost var rest := HomePlan(c, n1, edits);
        StatesAppend(first.actions, rest.actions, n);
        ApplyAllAppend(first.actions, rest.actions, n);
        GrownTwice(old(trace), t1, trace, States(first.actions, n), States(rest.actions, n1));
      }
    }

    method RunWithCache(c: Setup, f: Flags) returns (ok: bool)
      requires Layout(c)
      modifies this
      ensures var plan := RunPlan(c, f, old(nodes));
              && ok == plan.ok
              && nodes == ApplyAll(plan.actions, old(nodes))
              && Grown(old(trace), trace, States(plan.actions, old(nodes)))
    {
      if !Preflight(c) {
        return false;
      }
      var edits := ClientEdits(c);
      if edits.None? || !Validate(c, nodes, c.home) {
        return false;
      }
      var cache := ActiveCache(c, f, nodes);
      if !HfHomeOk(c, nodes, c.home) || (cache.Some? && !HfHomeOk(c, nodes, cache.value)) {
        return false;
      }
      if cache.Some? && !Validate(c, nodes, cache.value) {
        return false;
      }
      if f.dryRun || (c.home.legacy !in nodes && edits.value == []) {
        return true;
      }
      ok := MigrateAll(c, f, edits.value);
    }
  }

  lemma {:induction false} EditPlanKeepsPaths(n: Nodes, e: ClientEdit)
    ensures forall p :: p in n ==> p in ApplyAll(EditPlan(n, e), n)
  {
    var persist := Persist(e.path, e.content);
    ApplyTwo(persist, persist, n);
    ApplyTwo(SaveOriginal(e.path), persist, n);
    assert [SaveOriginal(e.path)] + [persist] == [SaveOriginal(e.path), persist];
    assert [] + [persist] == [persist];
  }

  /** Moving one pair of roots changes nothing outside its three places. */
  lemma {:induction false} MoveFrame(c: Setup, r: Roots, n: Nodes)
    requires r.legacy != r.target && r.target != Backup(r.legacy)
    ensures forall p :: p !in Places(r) ==> SameAt(n, ApplyAll(MigratePlan(c, n, r).actions, n), p)
    decreases |MigratePlan(c, n, r).actions|
  {
    var actions := MigratePlan(c, n, r).actions;
    if actions != [] {
      var m := Apply(actions[0], n);
      MigrateStepFrame(c, r, n);
      MigrateResume(c, r, n);
      MoveFrame(c, r, m);
      forall p | p !in Places(r)
        ensures SameAt(n, ApplyAll(actions, n), p)
      {
        assert SameAt(n, m, p) && SameAt(m, ApplyAll(actions[1..], m), p);
      }
    }
  }

  /** The client files to rewrite are still there once the cache has moved, and are no part of the home. */
  lemma {:induction false} ClientsStillThere(c: Setup, f: Flags, n: Nodes, edits: seq<ClientEdit>)
    requires Layout(c) && Edits(c, c.clients, n) == Some(edits)
    ensures var n1 := ApplyAll(CachePlan(c, f, n).actions, n);
            forall i :: 0 <= i < |edits| ==> edits[i].path in n1 && edits[i].path !in Places(c.home)
  {
    var n1 := ApplyAll(CachePlan(c, f, n).actions, n);
    if ActiveCache(c, f, n).Some? {
      MoveFrame(c, c.cache.value, n);
    }
    EditOfPresent(c, c.clients, n);
    EditsPaths(c, c.clients, n);
    forall i | 0 <= i < |edits|
      ensures edits[i].path in n1 && edits[i].path !in Places(c.home)
    {
      var k :| 0 <= k < |c.clients| && c.clients[k] == edits[i].path;
      assert ClientApart(c, c.clients[k]);
      assert SameAt(n, n1, edits[i].path);
    }
  }
}
