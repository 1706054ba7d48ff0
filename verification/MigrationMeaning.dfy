/**
 The protocol and the copy together: what the new home holds, whenever it can be seen.
 */
module MigrationMeaning {
  import opened Options
  import opened FileTree
  import opened MigrationPlan
  import opened MigrationProgress
  import opened MigrationSafety
  import opened MigrationRun
  import opened TreeCopy
  import opened Staging
  import opened ClientDocuments

  /**
   The meaning of what is moved is preserved at every moment, for the home and for the cache:
   from a disk without the new place, after any runs with any flags cut off anywhere, if
   anything is at the new place then every path in it reads as it must: as the legacy place
   read through its links, but for the left-out `bin`, the marker, and the two files that
   staging rewrites.
   */
  lemma {:induction false} MeaningPreservedOverAllRuns(
    c: Setup, flags: seq<Flags>, n0: Nodes, m: Nodes, w: World, r: Roots, rel: Path)
    requires Layout(c) && Stable(c) && Crashes(c, flags, n0, m)
    requires Moves(c, r) && r.legacy in n0 && r.target !in n0 && r.target in m
    requires var tree := n0[r.legacy];
             && tree.Dir? && NodeAt(w.disk, r.legacy) == Some(tree)
             && c.stage(r, tree) == StageTree(w, r, tree)
    requires rel != []
    ensures FileAt(m[r.target], Some(rel)) == Expected(w, r, n0[r.legacy], rel)
  {
    hide Layout, Stable, Crashes, FileAt, Expected, StageTree, NodeAt, Staged;
    OriginalNeverLost(c, flags, n0, m, r);
    StagedReadsAsExpected(c, w, r, n0[r.legacy], rel);
  }

  /** What the migration is asked to do, with the code that does it. */
  ghost predicate Concrete(c: Setup, w: World, clients: Migration, kinds: Path -> Kind) {
    && Layout(c)
    && (forall p {:trigger kinds(p)} :: Faithful(kinds(p)))
    && (forall p, x :: c.rewrite(p, x) == RewriteClient(clients, w.alnum, kinds(p), x))
    && (forall r, tree :: c.stage(r, tree) == StageTree(w, r, tree))
  }

  /**
   The whole migration with its real rewriters: wherever runs with the same arguments are cut
   off, one more run gives the disk and the verdict of an uninterrupted one and leaves nothing
   to do, and a success leaves nothing in the old places unless the cache was already stranded.
   */
  lemma MigrationRecovers(
    c: Setup, w: World, clients: Migration, kinds: Path -> Kind, f: Flags, flags: seq<Flags>, n0: Nodes, m: Nodes)
    requires Concrete(c, w, clients, kinds) && Crashes(c, flags, n0, m)
    requires forall i :: 0 <= i < |flags| ==> flags[i] == f
    ensures var last := ApplyAll(RunPlan(c, f, m).actions, m);
            && RunPlan(c, f, m).ok == RunPlan(c, f, n0).ok
            && last == ApplyAll(RunPlan(c, f, n0).actions, n0)
            && RunPlan(c, f, last).actions == []
            && Safe(c, n0, last)
            && (RunPlan(c, f, n0).ok && !f.dryRun && !f.skipCache ==> (Finished(c, last) <==> CacheBeforeHome(c, n0)))
  {
    hide Layout, Stable, RunPlan, ApplyAll, Crashes, States, Safe, Finished, CacheBeforeHome, RewriteClient, StageTree, Faithful;
    ClientsAreStable(c, clients, w.alnum, kinds);
    Recovery(c, f, flags, n0, m);
    if RunPlan(c, f, n0).ok && !f.dryRun && !f.skipCache {
      SuccessMeansFinished(c, f, n0);
    }
    StartIsSafe(c, n0);
    LastState(RunPlan(c, f, n0).actions, n0);
    RunSafe(c, f, n0, n0, ApplyAll(RunPlan(c, f, n0).actions, n0));
  }

  /**
   Exactly when a run with its real rewriters reports failure after changing something: all
   checks passed, the cache had steps to make, and the home could not be staged for one of
   the reasons a stage fails; and then it has made the cache's steps and no other.
   */
  lemma {:induction false} FailureWithEffect(c: Setup, w: World, clients: Migration, kinds: Path -> Kind, f: Flags, n: Nodes)
    requires Concrete(c, w, clients, kinds) && !RunPlan(c, f, n).ok
    requires c.home.legacy in n && n[c.home.legacy].Dir? ==>
               NodeAt(w.disk, c.home.legacy) == Some(n[c.home.legacy]) && WellFormed(n[c.home.legacy])
    ensures RunPlan(c, f, n).actions != [] <==>
            && Checked(c, f, n).Some? && !f.dryRun
            && CachePlan(c, f, n).actions != []
            && c.home.target !in n && c.home.legacy in n && n[c.home.legacy].Dir?
            && Unstageable(w, c.home, n[c.home.legacy])
    ensures RunPlan(c, f, n).actions != [] ==> RunPlan(c, f, n).actions == CachePlan(c, f, n).actions
  {
    hide RunPlan, MigratePlan, Layout, Stable, Edits, Preflight, HfHomeOk, Staged, Unstageable, RewriteClient, Faithful, StageTree;
    FailureEffect(c, f, n);
    if Checked(c, f, n).Some? && CachePlan(c, f, n).actions != [] {
      assert c.home.legacy in n && n[c.home.legacy].Dir?;
      StageFailsExactly(c, w, c.home, n[c.home.legacy]);
    }
  }

  /** Every state the running program passes through, call by call, is safe. */
  lemma EveryCallIsSafe(c: Setup, f: Flags, n0: Nodes, before: seq<Nodes>, after: seq<Nodes>, i: nat)
    requires Layout(c) && Stable(c)
    requires Grown(before, after, States(RunPlan(c, f, n0).actions, n0))
    requires |before| <= i < |after|
    ensures Safe(c, n0, after[i])
  {
    hide Layout, Stable, States, RunPlan, Safe;
    assert Crashes(c, [f], n0, after[i]) by {
      assert [f][1..] == [];
      assert Crashes(c, [], after[i], after[i]);
    }
    SafetyOverAllRuns(c, [f], n0, after[i]);
  }
}
