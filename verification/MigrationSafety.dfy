/**
 Safety of the migration: what holds of the disk at every moment, for any sequence of
 runs with any flags, each cut off anywhere, from any starting disk.
 */
module MigrationSafety {
  import opened Options
  import opened FileTree
  import opened MigrationPlan
  import opened MigrationProgress

  // ----- how far each part has got, told from the starting disk and the current one -----

  /** Nothing of this pair of roots has changed. */
  ghost predicate Untouched(r: Roots, n0: Nodes, n: Nodes) {
    SameOn(n0, n, Places(r))
  }

  /** The original is where it was and the complete copy, with its marker, is at the new place. */
  ghost predicate Published(c: Setup, r: Roots, n0: Nodes, n: Nodes) {
    && r.legacy in n0 && r.target !in n0 && Backup(r.legacy) !in n0
    && SameAt(n0, n, r.legacy)
    && r.target in n && Staged(c, r, n0[r.legacy]) == Some(n[r.target])
    && Backup(r.legacy) !in n
  }

  /** The original is at its backup, and the new place has the complete copy or the marked tree it always had. */
  ghost predicate Retired(c: Setup, r: Roots, n0: Nodes, n: Nodes) {
    && r.legacy in n0 && Backup(r.legacy) !in n0
    && r.legacy !in n
    && Backup(r.legacy) in n && n[Backup(r.legacy)] == n0[r.legacy]
    && r.target in n && MatchingMarker(r, n[r.target])
    && (if r.target in n0 then n[r.target] == n0[r.target]
        else Staged(c, r, n0[r.legacy]) == Some(n[r.target]))
  }

  ghost predicate RootsSafe(c: Setup, r: Roots, n0: Nodes, n: Nodes) {
    Untouched(r, n0, n) || Published(c, r, n0, n) || Retired(c, r, n0, n)
  }

  /** A client file is wholly its original or wholly its rewritten text, and is never rewritten without a backup. */
  ghost predicate ClientSafe(c: Setup, p: Path, n0: Nodes, n: Nodes) {
    || (SameAt(n0, n, p) && SameAt(n0, n, Backup(p)))
    || (&& p in n0 && c.rewrite(p, n0[p]).Rewrite?
        && (SameAt(n0, n, p) || (p in n && n[p] == File(c.rewrite(p, n0[p]).content)))
        && Backup(p) in n
        && n[Backup(p)] == (if Backup(p) in n0 then n0[Backup(p)] else n0[p]))
  }

  ghost predicate ClientTouched(p: Path, n0: Nodes, n: Nodes) {
    !SameAt(n0, n, p) || !SameAt(n0, n, Backup(p))
  }

  /** Every place that some step could change. */
  ghost function Touchable(c: Setup): set<Path> {
    Places(c.home)
    + (if c.cache.Some? then Places(c.cache.value) else {})
    + (set i | 0 <= i < |c.clients| :: c.clients[i])
    + (set i | 0 <= i < |c.clients| :: Backup(c.clients[i]))
  }

  ghost predicate Safe(c: Setup, n0: Nodes, n: Nodes) {
    && RootsSafe(c, c.home, n0, n)
    && (c.cache.Some? ==> RootsSafe(c, c.cache.value, n0, n))
    && (forall i :: 0 <= i < |c.clients| ==> ClientSafe(c, c.clients[i], n0, n))
    // No client is sent to the new home before the old home has been retired.
    && (forall i :: 0 <= i < |c.clients| && ClientTouched(c.clients[i], n0, n) ==> c.home.legacy !in n)
    && (forall p :: p !in Touchable(c) ==> SameAt(n0, n, p))
  }

  // ----- one step keeps it -----

  /** A step of one pair takes that pair from one stage to the next. */
  lemma RootsStep(c: Setup, r: Roots, n0: Nodes, n: Nodes)
    requires r.legacy != r.target && r.target != Backup(r.legacy)
    requires RootsSafe(c, r, n0, n)
    requires MigratePlan(c, n, r).actions != []
    ensures RootsSafe(c, r, n0, Apply(MigratePlan(c, n, r).actions[0], n))
  {
    var m := Apply(MigratePlan(c, n, r).actions[0], n);
    assert Backup(r.legacy) !in n && r.legacy in n;
    if Untouched(r, n0, n) {
      assert SameAt(n0, n, r.legacy) && SameAt(n0, n, r.target) && SameAt(n0, n, Backup(r.legacy));
      if r.target in n {
        assert Retired(c, r, n0, m);
      } else {
        assert Published(c, r, n0, m);
      }
    } else {
      assert Published(c, r, n0, n);
      assert Retired(c, r, n0, m);
    }
  }

  /** Places that a step leaves alone stay at the stage they were at. */
  lemma RootsFrame(c: Setup, r: Roots, n0: Nodes, n: Nodes, m: Nodes)
    requires RootsSafe(c, r, n0, n) && SameOn(n, m, Places(r))
    ensures RootsSafe(c, r, n0, m)
  {
    assert SameAt(n, m, r.legacy) && SameAt(n, m, r.target) && SameAt(n, m, Backup(r.legacy));
    if Untouched(r, n0, n) {
      assert SameAt(n0, n, r.legacy) && SameAt(n0, n, r.target) && SameAt(n0, n, Backup(r.legacy));
    }
  }

  lemma ClientFrame(c: Setup, p: Path, n0: Nodes, n: Nodes, m: Nodes)
    requires ClientSafe(c, p, n0, n) && SameAt(n, m, p) && SameAt(n, m, Backup(p))
    ensures ClientSafe(c, p, n0, m)
    ensures ClientTouched(p, n0, m) == ClientTouched(p, n0, n)
  {
  }

  /** A client step takes that client from one stage to the next. */
  lemma ClientStep(c: Setup, p: Path, content: Content, n0: Nodes, n: Nodes)
    requires Stable(c)
    requires ClientSafe(c, p, n0, n)
    requires p in n && c.rewrite(p, n[p]) == Rewrite(content)
    ensures ClientSafe(c, p, n0,
                       Apply(if Backup(p) in n then Persist(p, content) else SaveOriginal(p), n))
  {
  }

  lemma {:induction false} CacheStepSafe(c: Setup, n0: Nodes, n: Nodes)
    requires Layout(c) && Safe(c, n0, n)
    requires c.cache.Some? && MigratePlan(c, n, c.cache.value).actions != [] && c.home.legacy in n
    ensures Safe(c, n0, Apply(MigratePlan(c, n, c.cache.value).actions[0], n))
  {
    var r := c.cache.value;
    var m := Apply(MigratePlan(c, n, r).actions[0], n);
    MigrateStepFrame(c, r, n);
    CacheStepFrame(c, n, m);
    RootsStep(c, r, n0, n);
    RootsFrame(c, c.home, n0, n, m);
    forall i | 0 <= i < |c.clients|
      ensures ClientSafe(c, c.clients[i], n0, m)
      ensures ClientTouched(c.clients[i], n0, m) == ClientTouched(c.clients[i], n0, n)
    {
      assert ClientApart(c, c.clients[i]);
      ClientFrame(c, c.clients[i], n0, n, m);
    }
  }

  lemma {:induction false} HomeStepSafe(c: Setup, n0: Nodes, n: Nodes)
    requires Layout(c) && c.home.legacy != c.home.target && Safe(c, n0, n)
    requires MigratePlan(c, n, c.home).actions != []
    ensures Safe(c, n0, Apply(MigratePlan(c, n, c.home).actions[0], n))
  {
    var m := Apply(MigratePlan(c, n, c.home).actions[0], n);
    MigrateStepFrame(c, c.home, n);
    HomeStepFrame(c, n, m);
    RootsStep(c, c.home, n0, n);
    if c.cache.Some? {
      RootsFrame(c, c.cache.value, n0, n, m);
    }
    forall i | 0 <= i < |c.clients|
      ensures ClientSafe(c, c.clients[i], n0, m)
      ensures ClientTouched(c.clients[i], n0, m) == ClientTouched(c.clients[i], n0, n)
    {
      assert ClientApart(c, c.clients[i]);
      ClientFrame(c, c.clients[i], n0, n, m);
    }
  }

  lemma OtherClient(c: Setup, i: int, k: int)
    requires Layout(c) && 0 <= i < |c.clients| && 0 <= k < |c.clients| && i != k
    ensures {c.clients[i], Backup(c.clients[i])} !! {c.clients[k], Backup(c.clients[k])}
  {
    if i < k {
      assert ClientsApart(c.clients[i], c.clients[k]);
    } else {
      assert ClientsApart(c.clients[k], c.clients[i]);
    }
  }

  /** A step on one client's two places leaves every other client as it was. */
  lemma {:induction false} OtherClientsStep(c: Setup, k: int, content: Content, n0: Nodes, n: Nodes, m: Nodes)
    requires Layout(c) && Stable(c) && Safe(c, n0, n)
    requires 0 <= k < |c.clients| && c.clients[k] in n && c.rewrite(c.clients[k], n[c.clients[k]]) == Rewrite(content)
    requires m == Apply(if Backup(c.clients[k]) in n then Persist(c.clients[k], content) else SaveOriginal(c.clients[k]), n)
    ensures forall i :: 0 <= i < |c.clients| ==> ClientSafe(c, c.clients[i], n0, m)
  {
    forall i | 0 <= i < |c.clients|
      ensures ClientSafe(c, c.clients[i], n0, m)
    {
      if i == k {
        ClientStep(c, c.clients[k], content, n0, n);
      } else {
        OtherClient(c, i, k);
        ClientFrame(c, c.clients[i], n0, n, m);
      }
    }
  }

  lemma {:induction false} ClientStepSafe(c: Setup, k: int, content: Content, n0: Nodes, n: Nodes, m: Nodes)
    requires Layout(c) && Stable(c) && Safe(c, n0, n) && c.home.legacy !in n
    requires 0 <= k < |c.clients| && c.clients[k] in n && c.rewrite(c.clients[k], n[c.clients[k]]) == Rewrite(content)
    requires m == Apply(if Backup(c.clients[k]) in n then Persist(c.clients[k], content) else SaveOriginal(c.clients[k]), n)
    ensures Safe(c, n0, m)
  {
    var p := c.clients[k];
    OtherClientsStep(c, k, content, n0, n, m);
    ClientStepFrame(c, p, n, m);
    assert SameAt(n, m, c.home.legacy);
    RootsFrame(c, c.home, n0, n, m);
    if c.cache.Some? {
      RootsFrame(c, c.cache.value, n0, n, m);
    }
    forall q | q !in Touchable(c)
      ensures SameAt(n0, m, q)
    {
      assert p in Touchable(c) && Backup(p) in Touchable(c);
      assert SameAt(n0, n, q) && SameAt(n, m, q);
    }
  }

  lemma {:induction false} StepSafe(c: Setup, f: Flags, n0: Nodes, n: Nodes)
    requires Layout(c) && Stable(c) && Safe(c, n0, n)
    requires RunPlan(c, f, n).actions != []
    ensures Safe(c, n0, Apply(RunPlan(c, f, n).actions[0], n))
  {
    FirstStep(c, f, n);
    if CachePlan(c, f, n).actions != [] {
      CacheStepSafe(c, n0, n);
    } else if MigratePlan(c, n, c.home).actions != [] {
      HomeStepSafe(c, n0, n);
    } else {
      FirstClientStep(c, n);
      var e := Checked(c, f, n).value[0];
      var k :| 0 <= k < |c.clients| && c.clients[k] == e.path;
      ClientStepSafe(c, k, e.content, n0, n, Apply(RunPlan(c, f, n).actions[0], n));
    }
  }

  lemma {:induction false} RunSafe(c: Setup, f: Flags, n0: Nodes, n: Nodes, m: Nodes)
    requires Layout(c) && Stable(c) && Safe(c, n0, n)
    requires m in States(RunPlan(c, f, n).actions, n)
    ensures Safe(c, n0, m)
    decreases |RunPlan(c, f, n).actions|
  {
    hide RunPlan, Apply, Layout, Stable, Safe;
    if m != n {
      StepSafe(c, f, n0, n);
      RunResume(c, f, n);
      RunSafe(c, f, n0, Apply(RunPlan(c, f, n).actions[0], n), m);
    }
  }

  // ----- the theorem -----

  lemma StartIsSafe(c: Setup, n: Nodes)
    ensures Safe(c, n, n)
  {
    hide Backup, MatchingMarker, Staged;
  }

  lemma {:induction false} SafeFrom(c: Setup, flags: seq<Flags>, n0: Nodes, n: Nodes, m: Nodes)
    requires Layout(c) && Stable(c) && Safe(c, n0, n)
    requires Crashes(c, flags, n, m)
    ensures Safe(c, n0, m)
    decreases |flags|
  {
    hide RunPlan, States, Layout, Stable, Safe;
    if flags != [] {
      var cut :| cut in States(RunPlan(c, flags[0], n).actions, n) && Crashes(c, flags[1..], cut, m);
      RunSafe(c, flags[0], n0, n, cut);
      SafeFrom(c, flags[1..], n0, cut, m);
    }
  }

  /**
   Safety over all runs. From any starting disk, after any number of runs with any flags,
   each cut off anywhere: the legacy home that was there is whole, at its place or at its
   backup; what stands at the new place is what stood there before, or the complete marked
   copy; the same holds of the cache; every client file is wholly old or wholly new with
   its backup made first; and nothing else on the disk has changed.
   */
  lemma {:induction false} SafetyOverAllRuns(c: Setup, flags: seq<Flags>, n0: Nodes, m: Nodes)
    requires Layout(c) && Stable(c)
    requires Crashes(c, flags, n0, m)
    ensures Safe(c, n0, m)
  {
    StartIsSafe(c, n0);
    hide Safe, Crashes, Layout, Stable;
    SafeFrom(c, flags, n0, n0, m);
  }

  /** The pairs of roots a run may move. */
  predicate Moves(c: Setup, r: Roots) {
    r == c.home || c.cache == Some(r)
  }

  /** The same, read off for the home or the cache: the original is never lost, and is never in two places. */
  lemma OriginalNeverLost(c: Setup, flags: seq<Flags>, n0: Nodes, m: Nodes, r: Roots)
    requires Layout(c) && Stable(c) && Crashes(c, flags, n0, m)
    requires Moves(c, r) && r.legacy in n0
    ensures (r.legacy in m && m[r.legacy] == n0[r.legacy]) ||
            (r.legacy !in m && Backup(r.legacy) in m && m[Backup(r.legacy)] == n0[r.legacy])
    ensures r.target in m ==>
              || (r.target in n0 && m[r.target] == n0[r.target])
              || Staged(c, r, n0[r.legacy]) == Some(m[r.target])
    ensures r.legacy !in m ==>
              && r.target in m && m[r.target].Dir?
              && Find(m[r.target].entries, "mempalace-migration.json") == Some(File(Marker(1, r.legacy, r.target)))
  {
    SafetyOverAllRuns(c, flags, n0, m);
    assert Untouched(r, n0, m) ==> SameAt(n0, m, r.legacy) && SameAt(n0, m, r.target);
  }

  /**
   The original text of a rewritten client is in its backup exactly when no backup was
   there before, or the one that was there held that same text: an old backup is never
   overwritten.
   */
  lemma OriginalInBackup(c: Setup, flags: seq<Flags>, n0: Nodes, m: Nodes, p: Path)
    requires Layout(c) && Stable(c) && Crashes(c, flags, n0, m)
    requires p in c.clients && p in n0 && p in m && m[p] != n0[p]
    ensures c.rewrite(p, n0[p]).Rewrite? && m[p] == File(c.rewrite(p, n0[p]).content)
    ensures Backup(p) in m
    ensures m[Backup(p)] == n0[p] <==> (Backup(p) in n0 ==> n0[Backup(p)] == n0[p])
  {
    SafetyOverAllRuns(c, flags, n0, m);
    var i :| 0 <= i < |c.clients| && c.clients[i] == p;
    assert ClientSafe(c, c.clients[i], n0, m);
  }
}
