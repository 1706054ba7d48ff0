/**
 Progress of the migration: a rerun picks up exactly where a cut-off run stopped.
 */
module MigrationProgress {
  import opened Options
  import opened FileTree
  import opened MigrationPlan

  // ----- sequences of steps -----

  lemma {:induction false} ApplyAllAppend(a: seq<Action>, b: seq<Action>, n: Nodes)
    ensures ApplyAll(a + b, n) == ApplyAll(b, ApplyAll(a, n))
  {
    if a == [] {
      assert a + b == b;
    } else {
      assert (a + b)[0] == a[0] && (a + b)[1..] == a[1..] + b;
      ApplyAllAppend(a[1..], b, Apply(a[0], n));
    }
  }

  // ----- what a step leaves alone -----

  predicate SameAt(n: Nodes, m: Nodes, p: Path) {
    (p in n <==> p in m) && (p in n ==> n[p] == m[p])
  }

  ghost predicate SameOn(n: Nodes, m: Nodes, places: set<Path>) {
    forall p :: p in places ==> SameAt(n, m, p)
  }

  /** A plan for one pair of roots depends on its three places only. */
  lemma MigratePlanFrame(c: Setup, r: Roots, n: Nodes, m: Nodes)
    requires SameOn(n, m, Places(r))
    ensures Validate(c, n, r) == Validate(c, m, r)
    ensures MigratePlan(c, n, r) == MigratePlan(c, m, r)
    ensures HfHomeOk(c, n, r) == HfHomeOk(c, m, r)
  {
    assert SameAt(n, m, r.legacy) && SameAt(n, m, r.target) && SameAt(n, m, Backup(r.legacy));
  }

  lemma {:induction false} EditsFrame(c: Setup, clients: seq<Path>, n: Nodes, m: Nodes)
    requires forall i :: 0 <= i < |clients| ==> SameAt(n, m, clients[i])
    ensures Edits(c, clients, n) == Edits(c, clients, m)
  {
    if clients != [] {
      assert SameAt(n, m, clients[0]);
      EditsFrame(c, clients[1..], n, m);
    }
  }

  // ----- one pair of roots -----

  /** The steps of one pair change its own three places and nothing else. */
  lemma MigrateStepFrame(c: Setup, r: Roots, n: Nodes)
    requires MigratePlan(c, n, r).actions != []
    ensures var m := Apply(MigratePlan(c, n, r).actions[0], n);
            forall p :: p !in Places(r) ==> SameAt(n, m, p)
  {
  }

  /** After its first step, the plan for a pair is the rest of what it was. */
  lemma MigrateResume(c: Setup, r: Roots, n: Nodes)
    requires r.legacy != r.target && r.target != Backup(r.legacy)
    requires MigratePlan(c, n, r).actions != []
    ensures var plan := MigratePlan(c, n, r);
            var m := Apply(plan.actions[0], n);
            && Validate(c, m, r)
            && (m == Apply(Retire(r), n) ==> r.legacy !in m)
            && (HfHomeOk(c, n, r) ==> HfHomeOk(c, m, r))
            && MigratePlan(c, m, r) == Plan(plan.ok, plan.actions[1..])
  {
    var plan := MigratePlan(c, n, r);
    var m := Apply(plan.actions[0], n);
    if r.target in n {
      assert plan.actions == [Retire(r)];
      assert r.legacy !in m;
      assert SameAt(n, m, r.target);
    } else {
      assert plan.actions[1..] == [Retire(r)];
      assert SameAt(n, m, r.legacy) && SameAt(n, m, Backup(r.legacy));
    }
  }

  // ----- client files -----

  lemma {:induction false} EditsPaths(c: Setup, clients: seq<Path>, n: Nodes)
    requires Edits(c, clients, n).Some?
    ensures forall i :: 0 <= i < |Edits(c, clients, n).value| ==> Edits(c, clients, n).value[i].path in clients
  {
    if clients != [] {
      EditsPaths(c, clients[1..], n);
      var rest := Edits(c, clients[1..], n).value;
      var all := Edits(c, clients, n).value;
      forall i | 0 <= i < |all|
        ensures all[i].path in clients
      {
        if all == rest {
          assert all[i].path in clients[1..];
        } else if i > 0 {
          assert all[i] == rest[i - 1];
          assert rest[i - 1].path in clients[1..];
        }
      }
    }
  }

  /** Persisting the first pending edit removes it from the edits still to make. */
  lemma {:induction false} EditsAfterPersist(c: Setup, clients: seq<Path>, n: Nodes)
    requires Stable(c)
    requires forall i, j :: 0 <= i < j < |clients| ==> clients[i] != clients[j]
    requires Edits(c, clients, n).Some? && Edits(c, clients, n).value != []
    ensures var edits := Edits(c, clients, n).value;
            var m := Apply(Persist(edits[0].path, edits[0].content), n);
            Edits(c, clients, m) == Some(edits[1..])
  {
    var edits := Edits(c, clients, n).value;
    var m := Apply(Persist(edits[0].path, edits[0].content), n);
    var p := clients[0];
    if p in n && c.rewrite(p, n[p]).Rewrite? {
      assert edits[0] == ClientEdit(p, c.rewrite(p, n[p]).content);
      EditsFrame(c, clients[1..], n, m);
      assert c.rewrite(p, m[p]) == Keep;
    } else {
      EditsPaths(c, clients[1..], n);
      assert edits[0].path in clients[1..];
      assert SameAt(n, m, p);
      EditsAfterPersist(c, clients[1..], n);
    }
  }

  lemma {:induction false} ApplyTwo(a: Action, b: Action, n: Nodes)
    ensures ApplyAll([a], n) == Apply(a, n)
    ensures ApplyAll([a, b], n) == Apply(b, Apply(a, n))
  {
    assert [a][1..] == [];
    assert [a, b][1..] == [b] && [b][1..] == [];
    assert ApplyAll([b], Apply(a, n)) == Apply(b, Apply(a, n));
  }

  lemma {:induction false} EditsPlanUnfold(n: Nodes, edits: seq<ClientEdit>)
    requires edits != []
    ensures var p := edits[0].path;
            var persist := Persist(p, edits[0].content);
            if Backup(p) in n then
              EditsPlan(n, edits) == [persist] + EditsPlan(Apply(persist, n), edits[1..])
            else
              var saved := Apply(SaveOriginal(p), n);
              EditsPlan(n, edits) ==
                [SaveOriginal(p), persist] + EditsPlan(Apply(persist, saved), edits[1..])
  {
    var p := edits[0].path;
    var persist := Persist(p, edits[0].content);
    ApplyTwo(persist, persist, n);
    ApplyTwo(SaveOriginal(p), persist, n);
    assert [SaveOriginal(p)] + [persist] == [SaveOriginal(p), persist];
    assert [] + [persist] == [persist];
  }

  /** The places a client file uses are no other client's and no root's. */
  lemma ClientStepFrame(c: Setup, p: Path, n: Nodes, m: Nodes)
    requires Layout(c) && p in c.clients
    requires forall q :: q != p && q != Backup(p) ==> SameAt(n, m, q)
    ensures SameOn(n, m, Places(c.home))
    ensures c.cache.Some? ==> SameOn(n, m, Places(c.cache.value))
    ensures forall q :: q in c.clients && q != p ==> SameAt(n, m, q)
  {
    hide Backup, SameAt;
    var i :| 0 <= i < |c.clients| && c.clients[i] == p;
    assert ClientApart(c, c.clients[i]);
    forall q | q in c.clients && q != p
      ensures SameAt(n, m, q)
    {
      var j :| 0 <= j < |c.clients| && c.clients[j] == q;
      if i < j {
        assert ClientsApart(c.clients[i], c.clients[j]);
      } else {
        assert ClientsApart(c.clients[j], c.clients[i]);
      }
    }
  }

  lemma ClientsDistinct(c: Setup)
    requires Layout(c)
    ensures forall i, j :: 0 <= i < j < |c.clients| ==> c.clients[i] != c.clients[j]
  {
    forall i, j | 0 <= i < j < |c.clients|
      ensures c.clients[i] != c.clients[j]
    {
      assert ClientsApart(c.clients[i], c.clients[j]);
    }
  }

  lemma {:induction false} EditOfPresent(c: Setup, clients: seq<Path>, n: Nodes)
    requires Edits(c, clients, n).Some?
    ensures forall i :: 0 <= i < |Edits(c, clients, n).value| ==>
              var e := Edits(c, clients, n).value[i];
              e.path in n && c.rewrite(e.path, n[e.path]) == Rewrite(e.content)
  {
    if clients != [] {
      EditOfPresent(c, clients[1..], n);
    }
  }

  /** Saving an original leaves the edits to make as they were. */
  lemma {:induction false} EditsAfterSave(c: Setup, p: Path, n: Nodes)
    requires Layout(c) && p in c.clients
    ensures Edits(c, c.clients, Apply(SaveOriginal(p), n)) == Edits(c, c.clients, n)
  {
    var m := Apply(SaveOriginal(p), n);
    ClientStepFrame(c, p, n, m);
    assert SameAt(n, m, p);
    EditsFrame(c, c.clients, n, m);
  }

  /** After the first client step, the edits still to make are planned as the rest. */
  lemma {:induction false} ClientResume(c: Setup, n: Nodes)
    requires Layout(c) && Stable(c)
    requires Edits(c, c.clients, n).Some? && Edits(c, c.clients, n).value != []
    ensures var plan := EditsPlan(n, Edits(c, c.clients, n).value);
            && plan != []
            && var m := Apply(plan[0], n);
               && SameOn(n, m, Places(c.home))
               && Edits(c, c.clients, m).Some?
               && EditsPlan(m, Edits(c, c.clients, m).value) == plan[1..]
  {
    hide Edits, EditsPlan, Layout, Stable;
    var edits := Edits(c, c.clients, n).value;
    var p := edits[0].path;
    EditsPaths(c, c.clients, n);
    EditsPlanUnfold(n, edits);
    var plan := EditsPlan(n, edits);
    var m := Apply(plan[0], n);
    ClientStepFrame(c, p, n, m);
    if Backup(p) in n {
      ClientsDistinct(c);
      EditsAfterPersist(c, c.clients, n);
    } else {
      EditsAfterSave(c, p, n);
      EditOfPresent(c, c.clients, n);
      EditsPlanUnfold(m, edits);
    }
  }

  // ----- whole runs -----

  lemma CacheStepFrame(c: Setup, n: Nodes, m: Nodes)
    requires Layout(c) && c.cache.Some?
    requires forall p :: p !in Places(c.cache.value) ==> SameAt(n, m, p)
    ensures SameOn(n, m, Places(c.home))
    ensures forall i :: 0 <= i < |c.clients| ==> SameAt(n, m, c.clients[i])
  {
    forall i | 0 <= i < |c.clients|
      ensures SameAt(n, m, c.clients[i])
    {
      assert ClientApart(c, c.clients[i]);
    }
  }

  lemma HomeStepFrame(c: Setup, n: Nodes, m: Nodes)
    requires Layout(c)
    requires forall p :: p !in Places(c.home) ==> SameAt(n, m, p)
    ensures c.cache.Some? ==> SameOn(n, m, Places(c.cache.value))
    ensures forall i :: 0 <= i < |c.clients| ==> SameAt(n, m, c.clients[i])
  {
    forall i | 0 <= i < |c.clients|
      ensures SameAt(n, m, c.clients[i])
    {
      assert ClientApart(c, c.clients[i]);
    }
  }

  lemma ThenTail(first: Plan, second: Plan)
    requires first.actions != []
    ensures Then(first, second).actions != []
    ensures Then(first, second).actions[0] == first.actions[0]
    ensures Plan(Then(first, second).ok, Then(first, second).actions[1..]) ==
            Then(Plan(first.ok, first.actions[1..]), second)
  {
    assert (first.actions + second.actions)[1..] == first.actions[1..] + second.actions;
  }

  lemma ThenNothing(second: Plan)
    ensures Then(Plan(true, []), second) == second
  {
    assert [] + second.actions == second.actions;
  }

  /** The first step of a run that still has the cache to move. */
  lemma {:induction false} RunResumeCache(c: Setup, f: Flags, n: Nodes)
    requires Layout(c) && !f.dryRun
    requires Checked(c, f, n).Some?
    requires ActiveCache(c, f, n).Some? && MigratePlan(c, n, c.cache.value).actions != []
    ensures var plan := RunPlan(c, f, n);
            plan.actions != [] && RunPlan(c, f, Apply(plan.actions[0], n)) == Plan(plan.ok, plan.actions[1..])
  {
    var r := c.cache.value;
    var first := MigratePlan(c, n, r);
    var m := Apply(first.actions[0], n);
    MigrateStepFrame(c, r, n);
    MigrateResume(c, r, n);
    CacheStepFrame(c, n, m);
    MigratePlanFrame(c, c.home, n, m);
    EditsFrame(c, c.clients, n, m);
    assert SameAt(n, m, c.home.legacy);
    var edits := Checked(c, f, n).value;
    assert Checked(c, f, m) == Some(edits);
    var after := HomePlan(c, ApplyAll(first.actions, n), edits);
    assert RunPlan(c, f, n) == Then(first, after);
    assert RunPlan(c, f, m) == Then(Plan(first.ok, first.actions[1..]), after);
    ThenTail(first, after);
  }

  /** The first step of a run that has no cache left to move and still has the home to move. */
  lemma {:induction false} RunResumeHome(c: Setup, f: Flags, n: Nodes)
    requires Layout(c) && !f.dryRun
    requires Checked(c, f, n).Some?
    requires CachePlan(c, f, n) == Plan(true, [])
    requires MigratePlan(c, n, c.home).actions != []
    ensures var plan := RunPlan(c, f, n);
            plan.actions != [] && RunPlan(c, f, Apply(plan.actions[0], n)) == Plan(plan.ok, plan.actions[1..])
  {
    var home := MigratePlan(c, n, c.home);
    var m := Apply(home.actions[0], n);
    var edits := Checked(c, f, n).value;
    MigrateStepFrame(c, c.home, n);
    MigrateResume(c, c.home, n);
    HomeStepFrame(c, n, m);
    if c.cache.Some? {
      MigratePlanFrame(c, c.cache.value, n, m);
    }
    EditsFrame(c, c.clients, n, m);
    assert Checked(c, f, m) == Some(edits);
    assert CachePlan(c, f, m) == Plan(true, []);
    var after := Plan(true, EditsPlan(ApplyAll(home.actions, n), edits));
    ThenNothing(HomePlan(c, n, edits));
    ThenNothing(HomePlan(c, m, edits));
    assert RunPlan(c, f, n) == Then(home, after);
    assert HomePlan(c, m, edits) == Then(Plan(home.ok, home.actions[1..]), after);
    ThenTail(home, after);
    if c.home.legacy !in m && edits == [] {
      assert home.actions[1..] == [];
    }
  }

  /** The first step of a run that only has client files left to rewrite. */
  lemma {:induction false} RunResumeClients(c: Setup, f: Flags, n: Nodes)
    requires Layout(c) && Stable(c) && !f.dryRun
    requires Checked(c, f, n).Some? && Checked(c, f, n).value != []
    requires c.home.legacy !in n
    ensures var plan := RunPlan(c, f, n);
            plan.actions != [] && RunPlan(c, f, Apply(plan.actions[0], n)) == Plan(plan.ok, plan.actions[1..])
  {
    var edits := Checked(c, f, n).value;
    ClientResume(c, n);
    var plan := EditsPlan(n, edits);
    var m := Apply(plan[0], n);
    MigratePlanFrame(c, c.home, n, m);
    assert SameAt(n, m, c.home.legacy);
    ClientsOnlyPlan(c, f, n);
    ClientsOnlyPlan(c, f, m);
  }

  /** Without a legacy home a run is its client edits and nothing else. */
  lemma {:induction false} ClientsOnlyPlan(c: Setup, f: Flags, n: Nodes)
    requires !f.dryRun && c.home.legacy !in n
    requires Checked(c, f, n).Some?
    ensures RunPlan(c, f, n) == Plan(true, EditsPlan(n, Checked(c, f, n).value))
  {
    var edits := Checked(c, f, n).value;
    var after := Plan(true, EditsPlan(n, edits));
    ThenNothing(after);
    assert HomePlan(c, n, edits) == after;
  }

  /**
   The step that makes recovery work: a run cut off after its first durable step and
   started again plans exactly the steps the cut-off run had left.
   */
  lemma RunResume(c: Setup, f: Flags, n: Nodes)
    requires Layout(c) && Stable(c)
    requires RunPlan(c, f, n).actions != []
    ensures var plan := RunPlan(c, f, n);
            RunPlan(c, f, Apply(plan.actions[0], n)) == Plan(plan.ok, plan.actions[1..])
  {
    if CachePlan(c, f, n) != Plan(true, []) {
      RunResumeCache(c, f, n);
    } else if MigratePlan(c, n, c.home).actions != [] {
      RunResumeHome(c, f, n);
    } else {
      ThenNothing(HomePlan(c, n, Checked(c, f, n).value));
      RunResumeClients(c, f, n);
    }
  }

  // ----- runs cut off anywhere, any number of times -----

  /** Starting again from any state a run passes through completes that same run. */
  lemma {:induction false} Resume(c: Setup, f: Flags, n: Nodes, m: Nodes)
    requires Layout(c) && Stable(c)
    requires m in States(RunPlan(c, f, n).actions, n)
    ensures RunPlan(c, f, m).ok == RunPlan(c, f, n).ok
    ensures |RunPlan(c, f, m).actions| <= |RunPlan(c, f, n).actions|
    ensures RunPlan(c, f, m).actions ==
            RunPlan(c, f, n).actions[|RunPlan(c, f, n).actions| - |RunPlan(c, f, m).actions|..]
    ensures ApplyAll(RunPlan(c, f, m).actions, m) == ApplyAll(RunPlan(c, f, n).actions, n)
    decreases |RunPlan(c, f, n).actions|
  {
    hide RunPlan, Apply, Layout, Stable;
    var plan := RunPlan(c, f, n);
    if m != n {
      var next := Apply(plan.actions[0], n);
      RunResume(c, f, n);
      Resume(c, f, next, m);
    }
  }

  lemma {:induction false} LastState(actions: seq<Action>, n: Nodes)
    ensures ApplyAll(actions, n) in States(actions, n)
  {
    if actions != [] {
      LastState(actions[1..], Apply(actions[0], n));
    }
  }

  /** A finished run leaves nothing to do: running again makes no further step. */
  lemma {:induction false} FinishedIsQuiet(c: Setup, f: Flags, n: Nodes)
    requires Layout(c) && Stable(c)
    ensures RunPlan(c, f, ApplyAll(RunPlan(c, f, n).actions, n)) == Plan(RunPlan(c, f, n).ok, [])
    decreases |RunPlan(c, f, n).actions|
  {
    hide RunPlan, Apply, Layout, Stable;
    var plan := RunPlan(c, f, n);
    if plan.actions != [] {
      RunResume(c, f, n);
      FinishedIsQuiet(c, f, Apply(plan.actions[0], n));
    }
  }

  /**
   The disk `m` can be reached from `n` by runs with these flags, one after the other, each
   cut off in any state it passes through.
   */
  ghost predicate Crashes(c: Setup, flags: seq<Flags>, n: Nodes, m: Nodes) {
    if flags == [] then n == m
    else exists cut :: cut in States(RunPlan(c, flags[0], n).actions, n) && Crashes(c, flags[1..], cut, m)
  }

  /**
   Recovery. However many runs are cut off, and wherever, one uninterrupted rerun with the
   same arguments gives the very disk that a single uninterrupted run would have given,
   with the same verdict; and every further run then changes nothing.
   */
  lemma {:induction false} Recovery(c: Setup, f: Flags, flags: seq<Flags>, n: Nodes, m: Nodes)
    requires Layout(c) && Stable(c)
    requires Crashes(c, flags, n, m)
    requires forall i :: 0 <= i < |flags| ==> flags[i] == f
    ensures RunPlan(c, f, m).ok == RunPlan(c, f, n).ok
    ensures ApplyAll(RunPlan(c, f, m).actions, m) == ApplyAll(RunPlan(c, f, n).actions, n)
    ensures RunPlan(c, f, ApplyAll(RunPlan(c, f, m).actions, m)) == Plan(RunPlan(c, f, n).ok, [])
  {
    hide RunPlan, States, Apply, ApplyAll, Layout, Stable;
    FinishedIsQuiet(c, f, n);
    if flags != [] {
      var cut :| cut in States(RunPlan(c, flags[0], n).actions, n) && Crashes(c, flags[1..], cut, m);
      Resume(c, f, n, cut);
      Recovery(c, f, flags[1..], cut, m);
    }
  }

  // ----- which step comes next -----

  /** The cache moves first, then the home, and the clients only once the home is gone. */
  lemma {:induction false} FirstStep(c: Setup, f: Flags, n: Nodes)
    requires RunPlan(c, f, n).actions != []
    ensures Checked(c, f, n).Some? && !f.dryRun
    ensures var a := RunPlan(c, f, n).actions[0];
            var home := MigratePlan(c, n, c.home);
            if CachePlan(c, f, n).actions != [] then
              ActiveCache(c, f, n).Some? && a == MigratePlan(c, n, c.cache.value).actions[0]
            else if home.actions != [] then
              && c.home.legacy in n
              && a == home.actions[0]
              && (ActiveCache(c, f, n).Some? ==> c.cache.value.legacy !in n)
            else
              && c.home.legacy !in n
              && Checked(c, f, n).value != []
              && EditsPlan(n, Checked(c, f, n).value) != []
              && a == EditsPlan(n, Checked(c, f, n).value)[0]
  {
    hide MigratePlan, Edits, EditsPlan, Checked, Apply;
    var edits := Checked(c, f, n).value;
    MovesWhatIsThere(c, n, c.home);
    if ActiveCache(c, f, n).Some? {
      MovesWhatIsThere(c, n, c.cache.value);
    }
    if CachePlan(c, f, n).actions == [] {
      ThenNothing(HomePlan(c, n, edits));
      ThenNothing(Plan(true, EditsPlan(n, edits)));
    }
  }

  /** A pair has steps to make only while its legacy place is there, and then it has some. */
  lemma MovesWhatIsThere(c: Setup, n: Nodes, r: Roots)
    ensures MigratePlan(c, n, r).actions != [] ==> r.legacy in n
    ensures MigratePlan(c, n, r) == Plan(true, []) ==> r.legacy !in n
    ensures MigratePlan(c, n, r).actions != [] ==> MigratePlan(c, n, r).ok
  {
  }

  /** The step that a client edit starts with, and what it can change. */
  lemma {:induction false} FirstClientStep(c: Setup, n: Nodes)
    requires Edits(c, c.clients, n).Some? && Edits(c, c.clients, n).value != []
    ensures var e := Edits(c, c.clients, n).value[0];
            && e.path in c.clients && e.path in n
            && c.rewrite(e.path, n[e.path]) == Rewrite(e.content)
            && EditsPlan(n, Edits(c, c.clients, n).value) != []
            && EditsPlan(n, Edits(c, c.clients, n).value)[0] ==
               (if Backup(e.path) in n then Persist(e.path, e.content) else SaveOriginal(e.path))
  {
    EditsPlanUnfold(n, Edits(c, c.clients, n).value);
    EditsPaths(c, c.clients, n);
    EditOfPresent(c, c.clients, n);
  }

  // ----- the cache before the home -----

  /** The home is never retired while a cache that is being moved is still in place. */
  ghost predicate CacheBeforeHome(c: Setup, n: Nodes) {
    c.cache.Some? && c.home.legacy !in n ==> c.cache.value.legacy !in n
  }

  lemma {:induction false} StepKeepsCacheBeforeHome(c: Setup, f: Flags, n: Nodes)
    requires Layout(c) && !f.skipCache
    requires RunPlan(c, f, n).actions != []
    requires CacheBeforeHome(c, n)
    ensures CacheBeforeHome(c, Apply(RunPlan(c, f, n).actions[0], n))
  {
    var m := Apply(RunPlan(c, f, n).actions[0], n);
    FirstStep(c, f, n);
    if CachePlan(c, f, n).actions != [] {
      MigrateStepFrame(c, c.cache.value, n);
      CacheStepFrame(c, n, m);
      assert SameAt(n, m, c.home.legacy);
    } else if MigratePlan(c, n, c.home).actions != [] {
      MigrateStepFrame(c, c.home, n);
      HomeStepFrame(c, n, m);
    } else {
      FirstClientStep(c, n);
      ClientStepFrame(c, Checked(c, f, n).value[0].path, n, m);
    }
  }

  lemma {:induction false} RunKeepsCacheBeforeHome(c: Setup, f: Flags, n: Nodes, m: Nodes)
    requires Layout(c) && Stable(c) && !f.skipCache
    requires CacheBeforeHome(c, n)
    requires m in States(RunPlan(c, f, n).actions, n)
    ensures CacheBeforeHome(c, m)
    decreases |RunPlan(c, f, n).actions|
  {
    hide RunPlan, Apply, Layout, Stable, CacheBeforeHome;
    if m != n {
      var next := Apply(RunPlan(c, f, n).actions[0], n);
      StepKeepsCacheBeforeHome(c, f, n);
      RunResume(c, f, n);
      RunKeepsCacheBeforeHome(c, f, next, m);
    }
  }

  // ----- the finished state -----

  /** What a successful run that is not a preview has achieved. */
  ghost predicate Finished(c: Setup, n: Nodes) {
    && c.home.legacy !in n
    && (c.cache.Some? ==> c.cache.value.legacy !in n)
    && Edits(c, c.clients, n) == Some([])
  }

  lemma {:induction false} QuietMeansFinished(c: Setup, f: Flags, n: Nodes)
    requires Layout(c) && !f.dryRun && !f.skipCache && CacheBeforeHome(c, n)
    requires RunPlan(c, f, n) == Plan(true, [])
    ensures Finished(c, n)
  {
    var edits := Checked(c, f, n).value;
    assert c.home.legacy !in n by {
      ThenNothing(HomePlan(c, n, edits));
    }
    ClientsOnlyPlan(c, f, n);
    assert edits == [] by {
      if edits != [] {
        EditsPlanUnfold(n, edits);
      }
    }
  }

  /**
   A successful run finishes (nothing is left at the legacy home or the legacy cache and no
   client file still needs rewriting) exactly when it did not start with the home gone and
   the cache still in place.
   */
  lemma {:induction false} SuccessMeansFinished(c: Setup, f: Flags, n: Nodes)
    requires Layout(c) && Stable(c)
    requires !f.dryRun && !f.skipCache
    requires RunPlan(c, f, n).ok
    ensures Finished(c, ApplyAll(RunPlan(c, f, n).actions, n)) <==> CacheBeforeHome(c, n)
  {
    var final := ApplyAll(RunPlan(c, f, n).actions, n);
    LastState(RunPlan(c, f, n).actions, n);
    if CacheBeforeHome(c, n) {
      FinishedIsQuiet(c, f, n);
      RunKeepsCacheBeforeHome(c, f, n, final);
      QuietMeansFinished(c, f, final);
    } else {
      RunWithoutHome(c, f, n, final);
      assert SameAt(n, final, c.cache.value.legacy);
    }
  }

  // ----- where the protocol does not recover -----

  lemma {:induction false} RunWithoutHome(c: Setup, f: Flags, n: Nodes, m: Nodes)
    requires Layout(c) && Stable(c) && c.cache.Some?
    requires c.home.legacy !in n
    requires m in States(RunPlan(c, f, n).actions, n)
    ensures SameOn(n, m, Places(c.cache.value))
    ensures c.home.legacy !in m
    decreases |RunPlan(c, f, n).actions|
  {
    hide RunPlan, Edits, EditsPlan, Layout, Stable, Preflight, HfHomeOk;
    if m != n {
      var next := Apply(RunPlan(c, f, n).actions[0], n);
      FirstStep(c, f, n);
      FirstClientStep(c, n);
      ClientStepFrame(c, Checked(c, f, n).value[0].path, n, next);
      assert SameAt(n, next, c.home.legacy);
      RunResume(c, f, n);
      RunWithoutHome(c, f, next, m);
    }
  }

  /** A run that is told to skip the cache leaves its places alone. */
  lemma {:induction false} SkippingRunLeavesCache(c: Setup, f: Flags, n: Nodes, m: Nodes)
    requires Layout(c) && Stable(c) && c.cache.Some? && f.skipCache
    requires m in States(RunPlan(c, f, n).actions, n)
    ensures SameOn(n, m, Places(c.cache.value))
    decreases |RunPlan(c, f, n).actions|
  {
    hide RunPlan, Edits, EditsPlan, Layout, Stable, Preflight, HfHomeOk, MigratePlan;
    if m != n {
      var next := Apply(RunPlan(c, f, n).actions[0], n);
      FirstStep(c, f, n);
      if MigratePlan(c, n, c.home).actions != [] {
        MigrateStepFrame(c, c.home, n);
        HomeStepFrame(c, n, next);
      } else {
        FirstClientStep(c, n);
        ClientStepFrame(c, Checked(c, f, n).value[0].path, n, next);
      }
      RunResume(c, f, n);
      SkippingRunLeavesCache(c, f, next, m);
      forall p | p in Places(c.cache.value)
        ensures SameAt(n, m, p)
      {
        assert SameAt(n, next, p) && SameAt(next, m, p);
      }
    }
  }

  /** After a successful run that is not a preview the legacy home is gone. */
  lemma {:induction false} SuccessRetiresHome(c: Setup, f: Flags, n: Nodes)
    requires Layout(c) && Stable(c) && !f.dryRun && RunPlan(c, f, n).ok
    ensures c.home.legacy !in ApplyAll(RunPlan(c, f, n).actions, n)
  {
    FinishedIsQuiet(c, f, n);
    QuietHasNoHome(c, f, ApplyAll(RunPlan(c, f, n).actions, n));
  }

  lemma {:induction false} QuietHasNoHome(c: Setup, f: Flags, n: Nodes)
    requires !f.dryRun && RunPlan(c, f, n) == Plan(true, [])
    ensures c.home.legacy !in n
  {
    hide MigratePlan, EditsPlan, Checked;
    MovesWhatIsThere(c, n, c.home);
    if ActiveCache(c, f, n).Some? {
      MovesWhatIsThere(c, n, c.cache.value);
    }
  }

  /**
   A successful run that skips the cache ends with the home gone and the cache in place
   exactly when there was a cache to move.
   */
  lemma {:induction false} SkippingRunStrandsExactly(c: Setup, f: Flags, n: Nodes)
    requires Layout(c) && Stable(c) && !f.dryRun && f.skipCache && RunPlan(c, f, n).ok
    ensures !CacheBeforeHome(c, ApplyAll(RunPlan(c, f, n).actions, n)) <==>
            c.cache.Some? && c.cache.value.legacy in n
  {
    hide RunPlan, Layout, Stable;
    var last := ApplyAll(RunPlan(c, f, n).actions, n);
    SuccessRetiresHome(c, f, n);
    if c.cache.Some? {
      LastState(RunPlan(c, f, n).actions, n);
      SkippingRunLeavesCache(c, f, n, last);
      assert SameAt(n, last, c.cache.value.legacy);
    }
  }

  /**
   Skipping the cache after a cut-off run can strand it: once the home is gone, no run,
   whatever its flags and wherever it is cut off, ever touches the cache again.
   */
  lemma {:induction false} SkippedCacheIsStranded(c: Setup, flags: seq<Flags>, n: Nodes, m: Nodes)
    requires Layout(c) && Stable(c) && c.cache.Some?
    requires Crashes(c, flags, n, m)
    requires c.home.legacy !in n
    ensures SameOn(n, m, Places(c.cache.value))
  {
    hide RunPlan, States, Layout, Stable;
    if flags != [] {
      var cut :| cut in States(RunPlan(c, flags[0], n).actions, n) && Crashes(c, flags[1..], cut, m);
      RunWithoutHome(c, flags[0], n, cut);
      SkippedCacheIsStranded(c, flags[1..], cut, m);
      forall p | p in Places(c.cache.value)
        ensures SameAt(n, m, p)
      {
        assert SameAt(n, cut, p) && SameAt(cut, m, p);
      }
    }
  }

  /**
   A run that fails is not always without effect: it has changed nothing, or it has moved
   the whole cache and then found that the home cannot be copied.
   */
  lemma {:induction false} FailureEffect(c: Setup, f: Flags, n: Nodes)
    requires Layout(c)
    requires !RunPlan(c, f, n).ok
    ensures RunPlan(c, f, n).actions != [] <==>
            && Checked(c, f, n).Some? && !f.dryRun
            && CachePlan(c, f, n).actions != []
            && c.home.target !in n && Staged(c, c.home, n[c.home.legacy]).None?
    ensures RunPlan(c, f, n).actions != [] ==> RunPlan(c, f, n).actions == CachePlan(c, f, n).actions
  {
    var cache := CachePlan(c, f, n);
    if Checked(c, f, n).Some? && !f.dryRun && cache.actions != [] {
      CacheMoveFrame(c, f, n);
      MigratePlanFrame(c, c.home, n, ApplyAll(cache.actions, n));
    }
  }

  /** Moving the cache leaves the home where it was. */
  lemma {:induction false} CacheMoveFrame(c: Setup, f: Flags, n: Nodes)
    requires Layout(c) && CachePlan(c, f, n).actions != []
    ensures SameOn(n, ApplyAll(CachePlan(c, f, n).actions, n), Places(c.home))
  {
    var r := c.cache.value;
    var actions := CachePlan(c, f, n).actions;
    var m := Apply(actions[0], n);
    MigrateStepFrame(c, r, n);
    MigrateResume(c, r, n);
    CacheStepFrame(c, n, m);
    if actions[1..] != [] {
      var m2 := Apply(actions[1], m);
      MigrateStepFrame(c, r, m);
      CacheStepFrame(c, m, m2);
      assert actions == [actions[0], actions[1]];
      ApplyTwo(actions[0], actions[1], n);
      forall p | p in Places(c.home)
        ensures SameAt(n, m2, p)
      {
        assert SameAt(n, m, p) && SameAt(m, m2, p);
      }
    } else {
      assert actions == [actions[0]];
      ApplyTwo(actions[0], actions[0], n);
    }
  }
}
