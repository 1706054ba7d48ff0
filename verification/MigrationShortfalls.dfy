/**
 Where the migration does less than it seems to promise, at inputs, with the real stager.
 */
module MigrationShortfalls {
  import opened Options
  import opened FileTree
  import opened MigrationPlan
  import opened MigrationProgress
  import opened MigrationSafety
  import opened TreeCopy
  import opened Staging

  const HOME := Roots(["l"], ["t"])
  const CACHE := Roots(["cl"], ["ct"])
  const CLIENT := ["c"]
  const OLD_TEXT := Raw([1])
  const NEW_TEXT := Raw([2])
  const STALE_TEXT := Raw([3])

  /** A home, a cache and these clients, staged by the real stager in the world `w`. */
  function Example(w: World, clients: seq<Path>): Setup {
    Setup(HOME, Some(CACHE), ["b"], clients, None,
          (p, x) => if x == File(OLD_TEXT) then Rewrite(NEW_TEXT) else Keep,
          (r, tree) => StageTree(w, r, tree), (r, tree) => [], tree => true, p => Some(p))
  }

  const PLAIN := Flags(false, false)
  const SKIP := Flags(false, true)

  lemma BackupOfName(name: string)
    ensures Backup([name]) == [name + BACKUP_SUFFIX]
  {
    assert [name][..0] == [];
  }

  lemma ExampleIsSound(w: World)
    ensures Layout(Example(w, [])) && Layout(Example(w, [CLIENT]))
    ensures Stable(Example(w, [])) && Stable(Example(w, [CLIENT]))
    ensures Preflight(Example(w, [])) && Preflight(Example(w, [CLIENT]))
  {
    hide Backup, StageTree;
    BackupOfName("l");
    BackupOfName("cl");
    BackupOfName("c");
    assert |"l" + BACKUP_SUFFIX| == 17 && |"cl" + BACKUP_SUFFIX| == 18;
    assert ("l" + BACKUP_SUFFIX)[0] == 'l' && ("c" + BACKUP_SUFFIX)[0] == 'c' && ("cl" + BACKUP_SUFFIX)[0] == 'c';
  }

  /** An empty directory can be staged: the result holds the marker only. */
  lemma EmptyIsStaged(w: World, r: Roots)
    ensures StageTree(w, r, Dir([])) == Some(Dir([]))
  {
  }

  lemma SpecialIsRefused(w: World, r: Roots)
    ensures StageTree(w, r, Dir([Entry("socket", Special)])).None?
  {
  }

  /** A home that cannot be staged, because of a socket in it, and a cache that can. */
  const REFUSED_HOME: Nodes := map[["l"] := Dir([Entry("socket", Special)]), ["cl"] := Dir([])]

  /** A run that reports failure and has moved the whole cache. */
  lemma {:induction false} FailedRunMovedTheCache(w: World)
    ensures var c, n := Example(w, []), REFUSED_HOME;
            var last := ApplyAll(RunPlan(c, PLAIN, n).actions, n);
            && Layout(c) && Stable(c)
            && !RunPlan(c, PLAIN, n).ok
            && CACHE.legacy in n && CACHE.legacy !in last && CACHE.target in last
            && HOME.legacy in last && HOME.target !in last
  {
    var c, n := Example(w, []), REFUSED_HOME;
    ExampleIsSound(w);
    EmptyIsStaged(w, CACHE);
    SpecialIsRefused(w, HOME);
    BackupOfName("l");
    BackupOfName("cl");
    hide Backup, StageTree, Layout, Stable, Preflight;
    var marked := Staged(c, CACHE, Dir([])).value;
    var m := Apply(Publish(CACHE, marked), n);
    assert Checked(c, PLAIN, n) == Some([]);
    assert CachePlan(c, PLAIN, n) == Plan(true, [Publish(CACHE, marked), Retire(CACHE)]);
    ApplyTwo(Publish(CACHE, marked), Retire(CACHE), n);
    assert RunPlan(c, PLAIN, n).actions == [Publish(CACHE, marked), Retire(CACHE)];
  }

  /** A home and a cache, both empty. */
  const BOTH: Nodes := map[["l"] := Dir([]), ["cl"] := Dir([])]

  /** A run that skips the cache strands it: the next run succeeds and does not finish. */
  lemma {:induction false} SkippingRunStrandsTheCache(w: World)
    ensures var c, n := Example(w, []), BOTH;
            var skipped := ApplyAll(RunPlan(c, SKIP, n).actions, n);
            && Layout(c) && Stable(c) && CacheBeforeHome(c, n)
            && RunPlan(c, SKIP, n).ok
            && RunPlan(c, PLAIN, skipped).ok
            && !Finished(c, ApplyAll(RunPlan(c, PLAIN, skipped).actions, skipped))
  {
    var c, n := Example(w, []), BOTH;
    ExampleIsSound(w);
    EmptyIsStaged(w, HOME);
    BackupOfName("l");
    BackupOfName("cl");
    hide Backup, StageTree, Layout, Stable, Preflight;
    var marked := Staged(c, HOME, Dir([])).value;
    assert Checked(c, SKIP, n) == Some([]);
    assert RunPlan(c, SKIP, n) == Plan(true, [Publish(HOME, marked), Retire(HOME)]);
    ApplyTwo(Publish(HOME, marked), Retire(HOME), n);
    hide RunPlan, Checked, ApplyAll;
    var skipped := ApplyAll(RunPlan(c, SKIP, n).actions, n);
    SuccessRetiresHome(c, SKIP, n);
    SkippingRunStrandsExactly(c, SKIP, n);
    StrandedRunSucceeds(w, skipped);
    SuccessMeansFinished(c, PLAIN, skipped);
  }

  /** With the home gone a run has only links to refuse. */
  lemma {:induction false} StrandedRunSucceeds(w: World, n: Nodes)
    requires HOME.legacy !in n && (HOME.target in n ==> !n[HOME.target].Link?)
    ensures RunPlan(Example(w, []), PLAIN, n) == Plan(true, [])
  {
    ExampleIsSound(w);
    hide StageTree, Preflight;
    assert Checked(Example(w, []), PLAIN, n) == Some([]);
  }

  /** A client to rewrite whose backup is from another time. */
  const STALE_BACKUP: Nodes := map[CLIENT := File(OLD_TEXT), Backup(CLIENT) := File(STALE_TEXT)]

  /** A successful run after which the original of a client is nowhere: neither in place nor in its backup. */
  lemma {:induction false} OriginalIsLost(w: World)
    ensures var c, n := Example(w, [CLIENT]), STALE_BACKUP;
            var last := ApplyAll(RunPlan(c, PLAIN, n).actions, n);
            && Layout(c) && Stable(c)
            && RunPlan(c, PLAIN, n).ok
            && last == map[CLIENT := File(NEW_TEXT), Backup(CLIENT) := File(STALE_TEXT)]
  {
    var c, n := Example(w, [CLIENT]), STALE_BACKUP;
    ExampleIsSound(w);
    BackupOfName("c");
    hide Backup, StageTree, Layout, Stable, Preflight;
    var edit := ClientEdit(CLIENT, NEW_TEXT);
    assert c.clients[1..] == [] && Edits(c, [], n) == Some([]);
    assert n[CLIENT] == File(OLD_TEXT) && c.rewrite(CLIENT, n[CLIENT]) == Rewrite(NEW_TEXT);
    assert [edit] + [] == [edit];
    assert Edits(c, c.clients, n) == Some([edit]);
    assert CLIENT != HOME.legacy && CLIENT != HOME.target && Backup(CLIENT) != HOME.legacy && Backup(CLIENT) != HOME.target by {
      assert ("c" + BACKUP_SUFFIX)[0] == 'c';
    }
    assert Checked(c, PLAIN, n) == Some([edit]);
    ClientsOnlyPlan(c, PLAIN, n);
    EditsPlanUnfold(n, [edit]);
    var persist := Persist(CLIENT, NEW_TEXT);
    assert [edit][1..] == [] && EditsPlan(Apply(persist, n), []) == [];
    assert RunPlan(c, PLAIN, n).actions == [persist];
    ApplyTwo(persist, persist, n);
  }
}
