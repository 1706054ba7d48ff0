/**
 What every run of register and remove keeps, and where the registry's checks fall short.
 */
module RegistryTheorems {
  import opened Options
  import opened Federation
  import opened ProjectRegistry

  // ----- aliases -----

  ghost predicate NoDuplicates(canon: Path -> Path, checkouts: seq<Path>) {
    forall i, j :: 0 <= i < j < |checkouts| ==> canon(checkouts[i]) != canon(checkouts[j])
  }

  lemma AddAliasHas(canon: Path -> Path, checkouts: seq<Path>, p: Path, q: Path)
    ensures HasAlias(canon, AddAlias(canon, checkouts, p), q) <==>
            HasAlias(canon, checkouts, q) || canon(p) == canon(q)
  {
    var more := AddAlias(canon, checkouts, p);
    if HasAlias(canon, checkouts, q) {
      var i :| 0 <= i < |checkouts| && canon(checkouts[i]) == canon(q);
      assert more[i] == checkouts[i];
    }
    if canon(p) == canon(q) && !HasAlias(canon, checkouts, p) {
      assert more[|checkouts|] == p;
    }
  }

  /** Merging keeps every alias of both sides and adds no other. */
  lemma {:induction false} MergeHas(canon: Path -> Path, mine: seq<Path>, theirs: seq<Path>, q: Path)
    ensures HasAlias(canon, MergeAliases(canon, mine, theirs), q) <==>
            HasAlias(canon, mine, q) || HasAlias(canon, theirs, q)
    decreases |theirs|
  {
    if theirs != [] {
      AddAliasHas(canon, mine, theirs[0], q);
      MergeHas(canon, AddAlias(canon, mine, theirs[0]), theirs[1..], q);
      assert HasAlias(canon, theirs, q) <==> canon(theirs[0]) == canon(q) || HasAlias(canon, theirs[1..], q) by {
        if HasAlias(canon, theirs, q) {
          var i :| 0 <= i < |theirs| && canon(theirs[i]) == canon(q);
          if i > 0 {
            assert theirs[1..][i - 1] == theirs[i];
          }
        }
        if HasAlias(canon, theirs[1..], q) {
          var i :| 0 <= i < |theirs[1..]| && canon(theirs[1..][i]) == canon(q);
          assert theirs[i + 1] == theirs[1..][i];
        }
      }
    }
  }

  lemma AddAliasNoDuplicates(canon: Path -> Path, checkouts: seq<Path>, p: Path)
    requires NoDuplicates(canon, checkouts)
    ensures NoDuplicates(canon, AddAlias(canon, checkouts, p))
  {
  }

  lemma {:induction false} MergeNoDuplicates(canon: Path -> Path, mine: seq<Path>, theirs: seq<Path>)
    requires NoDuplicates(canon, mine)
    ensures NoDuplicates(canon, MergeAliases(canon, mine, theirs))
    decreases |theirs|
  {
    if theirs != [] {
      AddAliasNoDuplicates(canon, mine, theirs[0]);
      MergeNoDuplicates(canon, AddAlias(canon, mine, theirs[0]), theirs[1..]);
    }
  }

  // ----- merging twice is merging once -----

  /** The aliases that merging appends. */
  function Added(canon: Path -> Path, mine: seq<Path>, theirs: seq<Path>): seq<Path>
    decreases |theirs|
  {
    if theirs == [] then []
    else if HasAlias(canon, mine, theirs[0]) then Added(canon, mine, theirs[1..])
    else [theirs[0]] + Added(canon, mine + [theirs[0]], theirs[1..])
  }

  lemma {:induction false} MergeIsAppend(canon: Path -> Path, mine: seq<Path>, theirs: seq<Path>)
    ensures MergeAliases(canon, mine, theirs) == mine + Added(canon, mine, theirs)
    decreases |theirs|
  {
    if theirs != [] {
      MergeIsAppend(canon, AddAlias(canon, mine, theirs[0]), theirs[1..]);
      if !HasAlias(canon, mine, theirs[0]) {
        var rest := Added(canon, mine + [theirs[0]], theirs[1..]);
        assert mine + [theirs[0]] + rest == mine + ([theirs[0]] + rest);
      }
    } else {
      assert mine + [] == mine;
    }
  }

  /** Merging a list of known aliases changes nothing. */
  lemma {:induction false} MergeKnown(canon: Path -> Path, mine: seq<Path>, known: seq<Path>, theirs: seq<Path>)
    requires forall i :: 0 <= i < |known| ==> HasAlias(canon, mine, known[i])
    ensures MergeAliases(canon, mine, known + theirs) == MergeAliases(canon, mine, theirs)
    decreases |known|
  {
    if known == [] {
      assert known + theirs == theirs;
    } else {
      assert (known + theirs)[0] == known[0] && (known + theirs)[1..] == known[1..] + theirs;
      MergeKnown(canon, mine, known[1..], theirs);
    }
  }

  lemma {:induction false} MergeAddedAgain(canon: Path -> Path, mine: seq<Path>, theirs: seq<Path>)
    ensures MergeAliases(canon, mine, Added(canon, mine, theirs)) == mine + Added(canon, mine, theirs)
    decreases |theirs|
  {
    if theirs == [] {
      assert mine + [] == mine;
    } else if HasAlias(canon, mine, theirs[0]) {
      MergeAddedAgain(canon, mine, theirs[1..]);
    } else {
      var more := mine + [theirs[0]];
      var rest := Added(canon, more, theirs[1..]);
      MergeAddedAgain(canon, more, theirs[1..]);
      assert ([theirs[0]] + rest)[1..] == rest;
      assert more + rest == mine + ([theirs[0]] + rest);
    }
  }

  lemma {:induction false} MergeTwice(canon: Path -> Path, mine: seq<Path>, theirs: seq<Path>)
    ensures MergeAliases(canon, mine, MergeAliases(canon, mine, theirs)) == MergeAliases(canon, mine, theirs)
  {
    MergeIsAppend(canon, mine, theirs);
    MergeKnown(canon, mine, mine, Added(canon, mine, theirs));
    MergeAddedAgain(canon, mine, theirs);
  }

  // ----- registering keeps what is stored -----

  /**
   Registering never loses an alias of the stored declaration, never replaces a stored wing,
   room list, route or root by an empty one, touches no other declaration, and keeps aliases
   free of duplicates.
   */
  lemma RegisterKeeps(canon: Path -> Path, projects: Projects, id: string, e: Entry, checkout: Option<Path>)
    requires CanonOk(canon) && Register(canon, projects, id, e, checkout).Done?
    ensures var after := Register(canon, projects, id, e, checkout).projects;
            && after.Keys == projects.Keys + {id}
            && (forall other :: other in projects && other != id ==> after[other] == projects[other])
            && (checkout.Some? ==> HasAlias(canon, after[id].checkouts, checkout.value))
            && (forall p :: HasAlias(canon, e.checkouts, p) ==> HasAlias(canon, after[id].checkouts, p))
            && (id in projects ==>
                  && (forall p :: HasAlias(canon, projects[id].checkouts, p) ==> HasAlias(canon, after[id].checkouts, p))
                  && (!Blank(projects[id].wing) ==> !Blank(after[id].wing))
                  && (projects[id].rooms != [] ==> after[id].rooms != [])
                  && (projects[id].routing.Some? ==> after[id].routing.Some?)
                  && (projects[id].projectRoot.Some? ==> after[id].projectRoot.Some?))
            && (NoDuplicates(canon, e.checkouts) ==> NoDuplicates(canon, after[id].checkouts))
  {
    hide HasAlias, NoDuplicates, MergeAliases, AddAlias;
    var own := WithCheckout(canon, e, checkout);
    forall p
      ensures HasAlias(canon, own.checkouts, p) <==>
              HasAlias(canon, e.checkouts, p) || (checkout.Some? && canon(checkout.value) == canon(p))
      ensures id in projects ==>
                (HasAlias(canon, Merge(canon, own, projects[id]).checkouts, p) <==>
                 HasAlias(canon, own.checkouts, p) || HasAlias(canon, projects[id].checkouts, p))
    {
      if checkout.Some? {
        AddAliasHas(canon, e.checkouts, canon(checkout.value), p);
      }
      if id in projects {
        MergeHas(canon, own.checkouts, projects[id].checkouts, p);
      }
    }
    if NoDuplicates(canon, e.checkouts) {
      if checkout.Some? {
        AddAliasNoDuplicates(canon, e.checkouts, canon(checkout.value));
      }
      if id in projects {
        MergeNoDuplicates(canon, own.checkouts, projects[id].checkouts);
      }
    }
  }

  lemma DeclaredAgain(canon: Path -> Path, projects: Projects, id: string, e: Entry, checkout: Option<Path>)
    ensures var once := Declared(canon, projects, id, e, checkout);
            Declared(canon, projects[id := once], id, e, checkout) == once
  {
    var own := WithCheckout(canon, e, checkout);
    if id in projects {
      MergeTwice(canon, own.checkouts, projects[id].checkouts);
    } else {
      MergeIsAppend(canon, own.checkouts, []);
      assert own.checkouts + [] == own.checkouts;
      MergeKnownOnly(canon, own.checkouts);
    }
  }

  lemma {:induction false} MergeKnownOnly(canon: Path -> Path, mine: seq<Path>)
    ensures MergeAliases(canon, mine, mine) == mine
  {
    MergeKnown(canon, mine, mine, []);
    assert mine + [] == mine;
  }

  /** Registering the same declaration and checkout twice leaves what registering it once leaves. */
  lemma RegisterTwice(canon: Path -> Path, projects: Projects, id: string, e: Entry, checkout: Option<Path>)
    ensures var once := After(projects, Register(canon, projects, id, e, checkout));
            After(once, Register(canon, once, id, e, checkout)) == once
  {
    hide HasAlias, MayShare, MergeAliases, RootAgrees;
    DeclaredAgain(canon, projects, id, e, checkout);
  }

  // ----- a registry that can no longer be read -----

  /** After a successful registration the file can be read exactly when the merged root agrees with the id. */
  lemma ReadableAfterRegister(canon: Path -> Path, projects: Projects, id: string, e: Entry, checkout: Option<Path>)
    requires Register(canon, projects, id, e, checkout).Done?
    ensures Readable(Register(canon, projects, id, e, checkout).projects) <==>
            RootAgrees(id, Declared(canon, projects, id, e, checkout))
  {
    hide RootAgrees, Declared;
    var after := Register(canon, projects, id, e, checkout).projects;
    assert after[id] == Declared(canon, projects, id, e, checkout);
    forall other | other in after && other != id
      ensures RootAgrees(other, after[other])
    {
      assert RootAgrees(other, projects[other]);
    }
  }

  datatype Op = RegisterOp(id: string, e: Entry, checkout: Option<Path>) | RemoveOp(id: string)

  function Perform(canon: Path -> Path, projects: Projects, op: Op): Outcome {
    match op
    case RegisterOp(id, e, checkout) => Register(canon, projects, id, e, checkout)
    case RemoveOp(id) => Remove(projects, id)
  }

  function Run(canon: Path -> Path, projects: Projects, ops: seq<Op>): Projects
    decreases |ops|
  {
    if ops == [] then projects else Run(canon, After(projects, Perform(canon, projects, ops[0])), ops[1..])
  }

  /** Once a declaration whose root disagrees with its id is stored, nothing can change the registry again. */
  lemma {:induction false} UnreadableForever(canon: Path -> Path, projects: Projects, ops: seq<Op>)
    requires !Readable(projects)
    ensures Run(canon, projects, ops) == projects
    ensures forall op :: Perform(canon, projects, op) == Unreadable
  {
    if ops != [] {
      UnreadableForever(canon, projects, ops[1..]);
    }
  }

  // ----- shared checkouts -----

  ghost predicate ShareAlias(canon: Path -> Path, a: Entry, b: Entry) {
    exists p :: HasAlias(canon, a.checkouts, p) && HasAlias(canon, b.checkouts, p)
  }

  /** Two declarations that share a checkout are different parts of one repository. */
  ghost predicate Safe(canon: Path -> Path, projects: Projects) {
    forall a, b :: a in projects && b in projects && a != b && ShareAlias(canon, projects[a], projects[b]) ==>
      MayShare(a, projects[a], b, projects[b])
  }

  /** Another declaration that uses an alias this registration will have. */
  ghost predicate Touches(canon: Path -> Path, projects: Projects, id: string, checkout: Option<Path>, other: string) {
    && other in projects && other != id
    && ((id in projects && ShareAlias(canon, projects[other], projects[id]))
        || (checkout.Some? && HasAlias(canon, projects[other].checkouts, checkout.value)))
  }

  lemma SameAlias(canon: Path -> Path, checkouts: seq<Path>, p: Path, q: Path)
    requires canon(p) == canon(q)
    ensures HasAlias(canon, checkouts, p) == HasAlias(canon, checkouts, q)
  {
  }

  lemma DeclaredAliases(canon: Path -> Path, projects: Projects, id: string, e: Entry, checkout: Option<Path>, p: Path)
    requires CanonOk(canon) && e.checkouts == []
    ensures HasAlias(canon, Declared(canon, projects, id, e, checkout).checkouts, p) <==>
            || (id in projects && HasAlias(canon, projects[id].checkouts, p))
            || (checkout.Some? && canon(checkout.value) == canon(p))
  {
    var own := WithCheckout(canon, e, checkout);
    if checkout.Some? {
      AddAliasHas(canon, e.checkouts, canon(checkout.value), p);
    }
    if id in projects {
      MergeHas(canon, own.checkouts, projects[id].checkouts, p);
    }
  }

  lemma {:induction false} SharesAfter(canon: Path -> Path, projects: Projects, id: string, e: Entry, checkout: Option<Path>, other: string)
    requires CanonOk(canon) && e.checkouts == [] && other in projects && other != id
    ensures ShareAlias(canon, projects[other], Declared(canon, projects, id, e, checkout)) <==>
            Touches(canon, projects, id, checkout, other)
  {
    hide HasAlias, Declared;
    var now := Declared(canon, projects, id, e, checkout);
    if ShareAlias(canon, projects[other], now) {
      var p :| HasAlias(canon, projects[other].checkouts, p) && HasAlias(canon, now.checkouts, p);
      DeclaredAliases(canon, projects, id, e, checkout, p);
      if checkout.Some? && canon(checkout.value) == canon(p) {
        SameAlias(canon, projects[other].checkouts, checkout.value, p);
      }
    }
    if id in projects && ShareAlias(canon, projects[other], projects[id]) {
      var p :| HasAlias(canon, projects[other].checkouts, p) && HasAlias(canon, projects[id].checkouts, p);
      DeclaredAliases(canon, projects, id, e, checkout, p);
    } else if checkout.Some? && HasAlias(canon, projects[other].checkouts, checkout.value) {
      DeclaredAliases(canon, projects, id, e, checkout, checkout.value);
    }
  }

  /** A declaration that touches this one belongs to the same repository, or the registration was refused. */
  lemma TouchesSameRepository(canon: Path -> Path, projects: Projects, id: string, e: Entry, checkout: Option<Path>, other: string)
    requires CanonOk(canon) && Safe(canon, projects)
    requires Register(canon, projects, id, e, checkout).Done? && Touches(canon, projects, id, checkout, other)
    ensures RepositoryIdentity(other) == RepositoryIdentity(id)
  {
    hide HasAlias, Declared, RepositoryIdentity, Root;
    var own := WithCheckout(canon, e, checkout);
    if id in projects && ShareAlias(canon, projects[other], projects[id]) {
      assert MayShare(other, projects[other], id, projects[id]);
    } else {
      SameAlias(canon, projects[other].checkouts, checkout.value, canon(checkout.value));
      assert !Conflicts(canon, projects, id, own, canon(checkout.value));
      assert MayShare(other, projects[other], id, own);
    }
  }

  lemma ShareSymmetric(canon: Path -> Path, a: Entry, b: Entry)
    ensures ShareAlias(canon, a, b) == ShareAlias(canon, b, a)
  {
  }

  /**
   Exactly when a successful registration (without extra aliases) keeps shared checkouts
   safe: no declaration that uses one of its aliases has the root it ends up with. The check
   in the code compares roots before the stored root is merged in, and only for the one
   checkout given, so it does not imply this.
   */
  lemma {:induction false} RegisterSafeExactly(canon: Path -> Path, projects: Projects, id: string, e: Entry, checkout: Option<Path>)
    requires CanonOk(canon) && Safe(canon, projects) && e.checkouts == []
    requires Register(canon, projects, id, e, checkout).Done?
    ensures Safe(canon, Register(canon, projects, id, e, checkout).projects) <==>
            forall other :: Touches(canon, projects, id, checkout, other) ==>
              Root(projects[other]) != Root(Declared(canon, projects, id, e, checkout))
  {
    hide ShareAlias, Declared, RepositoryIdentity, Root, Touches;
    var now := Declared(canon, projects, id, e, checkout);
    var after := projects[id := now];
    forall other | other in projects && other != id
      ensures ShareAlias(canon, projects[other], now) <==> Touches(canon, projects, id, checkout, other)
      ensures ShareAlias(canon, projects[other], now) == ShareAlias(canon, now, projects[other])
      ensures Touches(canon, projects, id, checkout, other) ==> RepositoryIdentity(other) == RepositoryIdentity(id)
    {
      SharesAfter(canon, projects, id, e, checkout, other);
      ShareSymmetric(canon, projects[other], now);
      if Touches(canon, projects, id, checkout, other) {
        TouchesSameRepository(canon, projects, id, e, checkout, other);
      }
    }
    TouchesOthers(canon, projects, id, checkout);
    SafeAfterInsert(canon, projects, id, now, checkout);
  }

  lemma TouchesOthers(canon: Path -> Path, projects: Projects, id: string, checkout: Option<Path>)
    ensures forall other :: Touches(canon, projects, id, checkout, other) ==> other in projects && other != id
  {
  }

  lemma {:induction false} SafeAfterInsert(canon: Path -> Path, projects: Projects, id: string, now: Entry, checkout: Option<Path>)
    requires Safe(canon, projects)
    requires forall other :: Touches(canon, projects, id, checkout, other) ==> other in projects && other != id
    requires forall other :: other in projects && other != id ==>
               && (ShareAlias(canon, projects[other], now) <==> Touches(canon, projects, id, checkout, other))
               && (ShareAlias(canon, projects[other], now) == ShareAlias(canon, now, projects[other]))
               && (Touches(canon, projects, id, checkout, other) ==> RepositoryIdentity(other) == RepositoryIdentity(id))
    ensures Safe(canon, projects[id := now]) <==>
            forall other :: Touches(canon, projects, id, checkout, other) ==> Root(projects[other]) != Root(now)
  {
    hide ShareAlias, RepositoryIdentity, Root, Touches;
    var after := projects[id := now];
    if Safe(canon, after) {
      forall other | Touches(canon, projects, id, checkout, other)
        ensures Root(projects[other]) != Root(now)
      {
        assert MayShare(other, after[other], id, after[id]);
      }
    }
    if forall other :: Touches(canon, projects, id, checkout, other) ==> Root(projects[other]) != Root(now) {
      forall a, b | a in after && b in after && a != b && ShareAlias(canon, after[a], after[b])
        ensures MayShare(a, after[a], b, after[b])
      {
        if a == id {
          assert Touches(canon, projects, id, checkout, b);
        } else if b == id {
          assert Touches(canon, projects, id, checkout, a);
        } else {
          assert MayShare(a, projects[a], b, projects[b]);
        }
      }
    }
  }

  // ----- all runs, when every id keeps its root -----

  /** Every stored declaration has the root that belongs to its id. */
  ghost predicate RootsKept(rootOf: string -> string, projects: Projects) {
    forall id :: id in projects ==> Root(projects[id]) == rootOf(id)
  }

  /** A registration that names the id's root and gives no aliases of its own. */
  ghost predicate Disciplined(rootOf: string -> string, op: Op) {
    op.RegisterOp? ==> op.e.checkouts == [] && Root(op.e) == rootOf(op.id)
  }

  lemma RootOfDeclared(canon: Path -> Path, projects: Projects, id: string, e: Entry, checkout: Option<Path>)
    requires id in projects ==> Root(projects[id]) == Root(e)
    ensures Root(Declared(canon, projects, id, e, checkout)) == Root(e)
  {
    hide NormalRoot;
  }

  lemma {:induction false} StepSafe(canon: Path -> Path, rootOf: string -> string, projects: Projects, op: Op)
    requires CanonOk(canon) && Safe(canon, projects) && RootsKept(rootOf, projects) && Disciplined(rootOf, op)
    ensures var after := After(projects, Perform(canon, projects, op));
            Safe(canon, after) && RootsKept(rootOf, after)
  {
    hide Root, Declared, ShareAlias, Conflicts, RepositoryIdentity, WithCheckout;
    if op.RegisterOp? && Perform(canon, projects, op).Done? {
      RootOfDeclared(canon, projects, op.id, op.e, op.checkout);
      RegisterSafeExactly(canon, projects, op.id, op.e, op.checkout);
      forall other | Touches(canon, projects, op.id, op.checkout, other)
        ensures Root(projects[other]) != rootOf(op.id)
      {
        TouchingRootsDiffer(canon, rootOf, projects, op, other);
      }
    }
  }

  lemma TouchingRootsDiffer(canon: Path -> Path, rootOf: string -> string, projects: Projects, op: Op, other: string)
    requires CanonOk(canon) && Safe(canon, projects) && RootsKept(rootOf, projects) && Disciplined(rootOf, op)
    requires op.RegisterOp? && Perform(canon, projects, op).Done? && Touches(canon, projects, op.id, op.checkout, other)
    ensures Root(projects[other]) != rootOf(op.id)
  {
    hide HasAlias, Declared, RepositoryIdentity, NormalRoot;
    var own := WithCheckout(canon, op.e, op.checkout);
    if op.id in projects && ShareAlias(canon, projects[other], projects[op.id]) {
      assert MayShare(other, projects[other], op.id, projects[op.id]);
    } else {
      SameAlias(canon, projects[other].checkouts, op.checkout.value, canon(op.checkout.value));
      assert !Conflicts(canon, projects, op.id, own, canon(op.checkout.value));
      assert MayShare(other, projects[other], op.id, own);
    }
  }

  /**
   Registry safety over all runs: if every id keeps one root and callers give no aliases of
   their own, then after any sequence of registrations and removals two declarations that
   share a checkout have one repository identity and different roots.
   */
  lemma {:induction false} SafetyOverAllRuns(canon: Path -> Path, rootOf: string -> string, projects: Projects, ops: seq<Op>)
    requires CanonOk(canon) && Safe(canon, projects) && RootsKept(rootOf, projects)
    requires forall i :: 0 <= i < |ops| ==> Disciplined(rootOf, ops[i])
    ensures Safe(canon, Run(canon, projects, ops)) && RootsKept(rootOf, Run(canon, projects, ops))
    decreases |ops|
  {
    if ops != [] {
      hide Safe, RootsKept, Perform, Disciplined;
      StepSafe(canon, rootOf, projects, ops[0]);
      SafetyOverAllRuns(canon, rootOf, After(projects, Perform(canon, projects, ops[0])), ops[1..]);
    }
  }

  /**
   A changed root is checked against the declarations of the checkout given, and against no
   other: without a checkout, or from one that no other declaration has, it is accepted, and
   makes two declarations that share another checkout clash.
   */
  lemma {:induction false} RootChangeBreaksSafety(canon: Path -> Path, projects: Projects, a: string, b: string, e: Entry, checkout: Option<Path>)
    requires CanonOk(canon) && Safe(canon, projects) && Readable(projects)
    requires a in projects && b in projects && a != b && ShareAlias(canon, projects[b], projects[a])
    requires e.checkouts == [] && e.projectRoot.Some? && Root(e) == Root(projects[b])
    requires checkout.Some? ==>
               forall other :: other in projects && other != a ==> !HasAlias(canon, projects[other].checkouts, checkout.value)
    ensures Register(canon, projects, a, e, checkout).Done?
    ensures !Safe(canon, Register(canon, projects, a, e, checkout).projects)
  {
    hide ShareAlias, Safe, NormalRoot;
    RegisterSafeExactly(canon, projects, a, e, checkout);
    assert Touches(canon, projects, a, checkout, b);
    assert Root(Declared(canon, projects, a, e, checkout)) == Root(e);
  }

  // ----- looking a project up by path -----

  /** Git and path facts that discovery consults. */
  datatype Discovery = Discovery(
    canon: Path -> Path,
    gitRoot: Path -> Option<Path>,
    gitIdentity: Path -> Option<string>,
    text: Path -> string)

  /** `project_entry_matches_path`. */
  predicate Matches(d: Discovery, id: string, e: Entry, path: Path) {
    var p := d.canon(path);
    || HasAlias(d.canon, e.checkouts, path)
    || (&& e.projectRoot.Some?
        && (|| (&& d.gitRoot(p).Some?
                && d.gitIdentity(d.gitRoot(p).value) == Some(RepositoryIdentity(id))
                && d.gitRoot(p).value <= p
                && NormalRoot(d.text(p[|d.gitRoot(p).value|..])) == NormalRoot(e.projectRoot.value))
            || (exists i :: 0 <= i < |e.checkouts| && d.canon(e.checkouts[i]) <= p
                  && NormalRoot(d.text(p[|d.canon(e.checkouts[i])|..])) == NormalRoot(e.projectRoot.value))))
  }

  datatype Lookup = Found(id: string) | NotFound | Ambiguous | LookupUnreadable

  function MatchingIds(d: Discovery, projects: Projects, path: Path): set<string> {
    set id | id in projects && Matches(d, id, projects[id], path)
  }

  predicate HintUsable(id: string) {
    RepositoryIdentity(id) != "" && !("wing:" <= RepositoryIdentity(id))
  }

  /** `find_project_id`. */
  function FindProjectId(d: Discovery, projects: Projects, path: Path, hint: Option<string>): Lookup {
    var ids := MatchingIds(d, projects, path);
    if !Readable(projects) then LookupUnreadable
    else if |ids| > 1 then Ambiguous
    else
      var single := InferSingle(ids);
      if single.Some? then Found(single.value)
      else if hint.Some? && HintUsable(hint.value) && hint.value in projects then Found(hint.value)
      else NotFound
  }

  /**
   A checkout that was just registered is found again under its id exactly when the
   registry can be read and no other declaration matches the path; a checkout that a
   monorepo shares is accepted by registration and can then not be looked up.
   */
  lemma FindAfterRegister(d: Discovery, projects: Projects, id: string, e: Entry, checkout: Path, hint: Option<string>)
    requires CanonOk(d.canon) && Register(d.canon, projects, id, e, Some(checkout)).Done?
    ensures var after := Register(d.canon, projects, id, e, Some(checkout)).projects;
            && (FindProjectId(d, after, checkout, hint) == Found(id) <==>
                && Readable(after)
                && forall other :: other in after && other != id ==> !Matches(d, other, after[other], checkout))
            && (Readable(after) && (exists other :: other in after && other != id && Matches(d, other, after[other], checkout)) ==>
                FindProjectId(d, after, checkout, hint) == Ambiguous)
  {
    hide Matches, Declared, Conflicts, Readable;
    var after := Register(d.canon, projects, id, e, Some(checkout)).projects;
    RegisterKeeps(d.canon, projects, id, e, Some(checkout));
    AliasMatches(d, id, after[id], checkout);
    FindWhenMatched(d, after, id, checkout, hint);
  }

  lemma AliasMatches(d: Discovery, id: string, e: Entry, path: Path)
    requires HasAlias(d.canon, e.checkouts, path)
    ensures Matches(d, id, e, path)
  {
  }

  lemma FindWhenMatched(d: Discovery, projects: Projects, id: string, path: Path, hint: Option<string>)
    requires id in projects && Matches(d, id, projects[id], path)
    ensures FindProjectId(d, projects, path, hint) == Found(id) <==>
            && Readable(projects)
            && forall other :: other in projects && other != id ==> !Matches(d, other, projects[other], path)
    ensures Readable(projects) && (exists other :: other in projects && other != id && Matches(d, other, projects[other], path)) ==>
            FindProjectId(d, projects, path, hint) == Ambiguous
  {
    hide Matches, Readable, HintUsable;
    var ids := MatchingIds(d, projects, path);
    assert id in ids;
    if forall other :: other in projects && other != id ==> !Matches(d, other, projects[other], path) {
      assert ids == {id};
    } else {
      var other :| other in projects && other != id && Matches(d, other, projects[other], path);
      assert other in ids;
      TwoElements(ids, id, other);
    }
  }

  lemma TwoElements<T>(s: set<T>, x: T, y: T)
    requires x in s && y in s && x != y
    ensures |s| > 1
  {
    assert |s - {x}| >= 1 by {
      assert y in s - {x};
    }
  }

  // ----- the shortfalls at inputs -----

  const PART_A := Entry("wing_r", [], None, [["x"]], Some("a"))
  const PART_B := Entry("wing_r", [], None, [], Some("b"))

  lemma ShortNames()
    ensures RepositoryIdentity("r#a") == RepositoryIdentity("r#b") == "r"
    ensures IdRoot("r#a") == Some("a") && IdRoot("r#b") == Some("b")
    ensures NormalRoot("a") == "a" && NormalRoot("b") == "b"
  {
    assert forall s, c :: s == "r#" + [c] ==> s[1] == '#' && s[..1] == "r" && s[2..] == [c];
    assert "r#a"[2..] == "a" && "r#b"[2..] == "b";
    assert Index("r#a", '#') == 1 && Index("r#b", '#') == 1;
    assert Slashes("a") == "a" && Slashes("b") == "b";
  }

  /** A first registration that is accepted and leaves a registry nobody can read: id `r#a` with root `b`. */
  lemma {:induction false} AcceptedButUnreadable(canon: Path -> Path)
    ensures Register(canon, map[], "r#a", PART_B, None).Done?
    ensures !Readable(Register(canon, map[], "r#a", PART_B, None).projects)
  {
    hide NormalRoot, IdRoot, RepositoryIdentity;
    ShortNames();
    assert !RootAgrees("r#a", PART_B);
    ReadableAfterRegister(canon, map[], "r#a", PART_B, None);
  }

  /** Two parts of one repository in one checkout: both accepted, and the checkout is then found under neither. */
  lemma {:induction false} SharedButNotFound(d: Discovery, hint: Option<string>)
    requires CanonOk(d.canon)
    ensures var projects := map["r#a" := PART_A];
            var outcome := Register(d.canon, projects, "r#b", PART_B, Some(["x"]));
            && Readable(projects)
            && outcome.Done? && Readable(outcome.projects)
            && FindProjectId(d, outcome.projects, ["x"], hint) == Ambiguous
  {
    hide NormalRoot, IdRoot, RepositoryIdentity, FindProjectId, Matches;
    ShortNames();
    var projects := map["r#a" := PART_A];
    var outcome := Register(d.canon, projects, "r#b", PART_B, Some(["x"]));
    assert MayShare("r#a", PART_A, "r#b", WithCheckout(d.canon, PART_B, Some(["x"])));
    assert outcome.Done?;
    ReadableAfterRegister(d.canon, projects, "r#b", PART_B, Some(["x"]));
    FindAfterRegister(d, projects, "r#b", PART_B, ["x"], hint);
    assert HasAlias(d.canon, outcome.projects["r#a"].checkouts, ["x"]) by {
      assert outcome.projects["r#a"].checkouts[0] == ["x"];
    }
    AliasMatches(d, "r#a", outcome.projects["r#a"], ["x"]);
  }
}
