/**
 What a run comes to, told from the disk it starts on: when it is refused, and exactly what
 a successful one leaves.
 */
module MigrationOutcome {
  import opened Options
  import opened FileTree
  import opened MigrationPlan
  import opened MigrationProgress
  import opened MigrationSafety

  // ----- what a run is refused for -----

  /** The pairs of roots that this run would move. */
  predicate Moving(c: Setup, f: Flags, n: Nodes, r: Roots) {
    r == c.home || (c.cache == Some(r) && !f.skipCache && c.home.legacy in n)
  }

  /**
   Nothing is moved onto something else: a directory at the new place must hold the marker
   of this very move, version, source and destination, and a backup must not exist yet.
   */
  lemma RetireNeedsMarker(c: Setup, n: Nodes, r: Roots)
    requires Retire(r) in MigratePlan(c, n, r).actions
    ensures r.legacy in n && n[r.legacy].Dir? && Backup(r.legacy) !in n
    ensures r.target in n ==>
              && n[r.target].Dir?
              && Find(n[r.target].entries, "mempalace-migration.json") == Some(File(Marker(1, r.legacy, r.target)))
  {
  }

  /** Two homes, or two caches, of which the new one is not a copy of the old: the run is refused as a whole. */
  lemma RefusesToMerge(c: Setup, f: Flags, n: Nodes, r: Roots)
    requires Moving(c, f, n, r) && r.legacy in n && r.target in n
    requires n[r.target].Dir? ==>
               Find(n[r.target].entries, "mempalace-migration.json") != Some(File(Marker(1, r.legacy, r.target)))
    ensures MigratePlan(c, n, r) == Plan(false, [])
    ensures RunPlan(c, f, n) == Plan(false, [])
  {
  }

  lemma {:induction false} EditsUnlessRefused(c: Setup, clients: seq<Path>, n: Nodes)
    ensures Edits(c, clients, n).Some? <==>
            forall i :: 0 <= i < |clients| && clients[i] in n ==> !c.rewrite(clients[i], n[clients[i]]).Refuse?
  {
    if clients != [] {
      EditsUnlessRefused(c, clients[1..], n);
      assert forall i :: 0 < i < |clients| ==> clients[i] == clients[1..][i - 1];
    }
  }

  /** One pair passes: no links, a readable directory, a marked new place if any, no backup, and no `HF_HOME` inside. */
  lemma PairIsChecked(c: Setup, n: Nodes, r: Roots)
    ensures Validate(c, n, r) && HfHomeOk(c, n, r) <==>
            && (r.legacy in n ==> !n[r.legacy].Link?) && (r.target in n ==> !n[r.target].Link?)
            && (r.legacy in n ==>
                  && n[r.legacy].Dir? && c.readableConfig(n[r.legacy])
                  && Backup(r.legacy) !in n
                  && (r.target in n ==>
                        && n[r.target].Dir?
                        && Find(n[r.target].entries, "mempalace-migration.json") == Some(File(Marker(1, r.legacy, r.target))))
                  && (c.hfHome.Some? ==> !(r.legacy <= c.hfHome.value)))
  {
  }

  /**
   The checks that every run makes before it changes anything, each of which refuses the run
   and leaves the disk as it was: separate roots, also through aliases; an executable outside
   the old home and its backup; each pair as above; and no client that cannot be migrated.
   */
  lemma {:induction false} RefusedUnlessChecked(c: Setup, f: Flags, n: Nodes)
    ensures Checked(c, f, n).Some? <==>
            && !(c.home.legacy <= c.home.target) && !(c.home.target <= c.home.legacy)
            && c.physical(c.home.legacy).Some? && c.physical(c.home.target).Some?
            && c.physical(c.binary).Some? && c.physical(Backup(c.home.legacy)).Some?
            && !(c.physical(c.home.legacy).value <= c.physical(c.home.target).value)
            && !(c.physical(c.home.target).value <= c.physical(c.home.legacy).value)
            && !(c.physical(c.home.legacy).value <= c.physical(c.binary).value)
            && !(c.physical(Backup(c.home.legacy)).value <= c.physical(c.binary).value)
            && (forall r :: Moving(c, f, n, r) ==> Validate(c, n, r) && HfHomeOk(c, n, r))
            && (forall i :: 0 <= i < |c.clients| && c.clients[i] in n ==> !c.rewrite(c.clients[i], n[c.clients[i]]).Refuse?)
    ensures Checked(c, f, n).None? ==> RunPlan(c, f, n) == Plan(false, [])
    ensures Checked(c, f, n).Some? && f.dryRun ==> RunPlan(c, f, n) == Plan(true, [])
  {
    hide Validate, HfHomeOk;
    EditsUnlessRefused(c, c.clients, n);
    assert Moving(c, f, n, c.home);
    assert c.cache.Some? && !f.skipCache && c.home.legacy in n ==> Moving(c, f, n, c.cache.value);
  }

  // ----- what a success leaves -----

  lemma {:induction false} NothingToEdit(c: Setup, clients: seq<Path>, n: Nodes)
    requires Edits(c, clients, n) == Some([])
    ensures forall i :: 0 <= i < |clients| && clients[i] in n ==> c.rewrite(clients[i], n[clients[i]]) == Keep
  {
    if clients != [] {
      assert Edits(c, clients[1..], n) == Some([]);
      NothingToEdit(c, clients[1..], n);
      assert forall i :: 0 < i < |clients| ==> clients[i] == clients[1..][i - 1];
    }
  }

  /** After a success no client needs rewriting. */
  lemma {:induction false} SuccessEditsAll(c: Setup, f: Flags, n: Nodes)
    requires Layout(c) && Stable(c) && !f.dryRun && RunPlan(c, f, n).ok
    ensures Edits(c, c.clients, ApplyAll(RunPlan(c, f, n).actions, n)) == Some([])
  {
    var last := ApplyAll(RunPlan(c, f, n).actions, n);
    FinishedIsQuiet(c, f, n);
    SuccessRetiresHome(c, f, n);
    ClientsOnlyPlan(c, f, last);
    var edits := Checked(c, f, last).value;
    if edits != [] {
      EditsPlanUnfold(last, edits);
    }
  }

  /** After a success nothing that was to be moved is at its legacy place. */
  lemma {:induction false} SuccessMovesAll(c: Setup, f: Flags, n: Nodes, r: Roots)
    requires Layout(c) && Stable(c) && !f.dryRun && RunPlan(c, f, n).ok
    requires Moving(c, f, n, r)
    ensures r.legacy !in ApplyAll(RunPlan(c, f, n).actions, n)
  {
    hide RunPlan, Layout, Stable;
    var last := ApplyAll(RunPlan(c, f, n).actions, n);
    SuccessRetiresHome(c, f, n);
    if r != c.home {
      LastState(RunPlan(c, f, n).actions, n);
      RunKeepsCacheBeforeHome(c, f, n, last);
    }
  }

  lemma {:induction false} LastIsSafe(c: Setup, f: Flags, n: Nodes)
    requires Layout(c) && Stable(c)
    ensures Safe(c, n, ApplyAll(RunPlan(c, f, n).actions, n))
  {
    hide Layout, Stable, RunPlan, Safe;
    StartIsSafe(c, n);
    LastState(RunPlan(c, f, n).actions, n);
    RunSafe(c, f, n, n, ApplyAll(RunPlan(c, f, n).actions, n));
  }

  /**
   Everything a success leaves of what it was to move: nothing at the legacy place, the
   original at the backup, and at the new place what was there or the complete staged copy.
   */
  lemma {:induction false} SuccessMoves(c: Setup, f: Flags, n: Nodes, r: Roots)
    requires Layout(c) && Stable(c) && !f.dryRun && RunPlan(c, f, n).ok
    requires Moving(c, f, n, r) && r.legacy in n
    ensures var last := ApplyAll(RunPlan(c, f, n).actions, n);
            && r.legacy !in last
            && Backup(r.legacy) in last && last[Backup(r.legacy)] == n[r.legacy]
            && r.target in last
            && (if r.target in n then last[r.target] == n[r.target]
                else Staged(c, r, n[r.legacy]) == Some(last[r.target]))
  {
    hide Layout, Stable, RunPlan;
    var last := ApplyAll(RunPlan(c, f, n).actions, n);
    LastIsSafe(c, f, n);
    SuccessMovesAll(c, f, n, r);
    assert Untouched(r, n, last) ==> SameAt(n, last, r.legacy);
  }

  /**
   And of every client: a client that the rewriter rewrites holds exactly the rewritten text,
   with the original at its backup unless a backup was there; every other is as it was.
   */
  lemma {:induction false} SuccessRewrites(c: Setup, f: Flags, n: Nodes, i: int)
    requires Layout(c) && Stable(c) && !f.dryRun && RunPlan(c, f, n).ok
    requires 0 <= i < |c.clients|
    ensures var last, p := ApplyAll(RunPlan(c, f, n).actions, n), c.clients[i];
            if p in n && c.rewrite(p, n[p]).Rewrite? then
              && p in last && last[p] == File(c.rewrite(p, n[p]).content)
              && Backup(p) in last && last[Backup(p)] == (if Backup(p) in n then n[Backup(p)] else n[p])
            else SameAt(n, last, p) && SameAt(n, last, Backup(p))
  {
    hide Layout, Stable, RunPlan;
    var last, p := ApplyAll(RunPlan(c, f, n).actions, n), c.clients[i];
    LastIsSafe(c, f, n);
    SuccessEditsAll(c, f, n);
    NothingToEdit(c, c.clients, last);
    assert ClientSafe(c, c.clients[i], n, last);
  }
}
