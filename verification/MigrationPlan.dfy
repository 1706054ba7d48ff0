/**
 The offline migration as a plan of durable filesystem steps.

 A run looks at the disk once per decision and then performs at most four kinds of
 durable step. Each step is atomic: a rename, a copy of one file, or the persist of one
 temporary file. Temporary files and directories have fresh names and are never read
 back, so they are not part of the state that plans are computed from.
 */
module MigrationPlan {
  import opened Options
  import opened FileTree

  /** The disk: what is found at each place the migration can touch, and at any other place. */
  type Nodes = map<Path, Node>

  /** One directory to move: its legacy place and its new place. */
  datatype Roots = Roots(legacy: Path, target: Path)

  /** What the client rewriter says about one client file. */
  datatype Edit = Keep | Rewrite(content: Content) | Refuse

  /**
   The arguments of a run and the library behaviour it depends on.
   - `rewrite` is the decision of the client rewriter for one client file;
   - `stage` is the copied and rewritten tree, or `None` when copying refuses the tree;
   - `drafts` lists what the staging directory holds while that copy is being made;
   - `readableConfig` says whether the tree's `config.json`, if any, parses;
   - `physical` resolves a path through filesystem aliases, or fails.
   */
  datatype Setup = Setup(
    home: Roots,
    cache: Option<Roots>,
    binary: Path,
    clients: seq<Path>,
    hfHome: Option<Path>,
    rewrite: (Path, Node) -> Edit,
    stage: (Roots, Node) -> Option<Node>,
    drafts: (Roots, Node) -> seq<Node>,
    readableConfig: Node -> bool,
    physical: Path -> Option<Path>)

  datatype Flags = Flags(dryRun: bool, skipCache: bool)

  const MARKER := "mempalace-migration.json"
  const BACKUP_SUFFIX := ".pre-agentpalace"

  function Backup(p: Path): (b: Path)
    ensures b != p
  {
    if p == [] then [BACKUP_SUFFIX]
    else
      var last := p[|p| - 1];
      assert |last + BACKUP_SUFFIX| > |last|;
      p[..|p| - 1] + [last + BACKUP_SUFFIX]
  }

  /** Two places of which neither is the other or inside the other. */
  predicate Apart(p: Path, q: Path) {
    p != q && !(p <= q) && !(q <= p)
  }

  predicate Within(p: Path, root: Path) {
    root <= p
  }

  // ----- decisions that only read the disk -----

  function MatchingMarker(r: Roots, node: Node): (b: bool) {
    node.Dir? && Find(node.entries, MARKER) == Some(File(Marker(1, r.legacy, r.target)))
  }

  /** The complete tree to publish: the staged copy with the marker written into it. */
  function Staged(c: Setup, r: Roots, tree: Node): (s: Option<Node>)
    ensures s.Some? ==> MatchingMarker(r, s.value)
  {
    var copy := c.stage(r, tree);
    if copy.None? || !copy.value.Dir? then None
    else
      var written := WriteFile(copy.value.entries, MARKER, Marker(1, r.legacy, r.target));
      if written.None? then None else Some(Dir(written.value))
  }

  predicate NotALink(n: Nodes, p: Path) {
    p in n ==> !n[p].Link?
  }

  /** `validate_data`: may this pair of roots be migrated, or be left as it is? */
  predicate Validate(c: Setup, n: Nodes, r: Roots) {
    && NotALink(n, r.legacy)
    && NotALink(n, r.target)
    && (r.legacy in n ==>
          && n[r.legacy].Dir?
          && c.readableConfig(n[r.legacy])
          && (r.target in n ==> MatchingMarker(r, n[r.target]))
          && Backup(r.legacy) !in n)
  }

  /** The checks on the arguments alone: separate roots, and an executable outside what will move. */
  predicate Preflight(c: Setup) {
    && Apart(c.home.legacy, c.home.target)
    && c.physical(c.home.legacy).Some?
    && c.physical(c.home.target).Some?
    && c.physical(c.binary).Some?
    && c.physical(Backup(c.home.legacy)).Some?
    && !Within(c.physical(c.home.legacy).value, c.physical(c.home.target).value)
    && !Within(c.physical(c.home.target).value, c.physical(c.home.legacy).value)
    && !Within(c.physical(c.binary).value, c.physical(c.home.legacy).value)
    && !Within(c.physical(c.binary).value, c.physical(Backup(c.home.legacy)).value)
  }

  datatype ClientEdit = ClientEdit(path: Path, content: Content)

  /** `client_edits`: every client document is read and judged before anything moves. */
  function Edits(c: Setup, clients: seq<Path>, n: Nodes): Option<seq<ClientEdit>> {
    if clients == [] then Some([])
    else
      var p := clients[0];
      var rest := Edits(c, clients[1..], n);
      if p !in n then rest
      else
        match c.rewrite(p, n[p])
        case Refuse => None
        case Keep => rest
        case Rewrite(t) => if rest.None? then None else Some([ClientEdit(p, t)] + rest.value)
  }

  /** The cache roots this run moves: none without a legacy home, or when told to skip them. */
  function ActiveCache(c: Setup, f: Flags, n: Nodes): Option<Roots> {
    if c.home.legacy in n && !f.skipCache then c.cache else None
  }

  /** `HF_HOME` must not point inside a directory that is about to move. */
  predicate HfHomeOk(c: Setup, n: Nodes, r: Roots) {
    c.hfHome.Some? && r.legacy in n ==> !Within(c.hfHome.value, r.legacy)
  }

  /** All checks made before the first change; on success, the client edits to make. */
  function Checked(c: Setup, f: Flags, n: Nodes): Option<seq<ClientEdit>> {
    var cache := ActiveCache(c, f, n);
    if && Preflight(c)
       && Validate(c, n, c.home)
       && HfHomeOk(c, n, c.home)
       && (cache.Some? ==> HfHomeOk(c, n, cache.value) && Validate(c, n, cache.value))
    then Edits(c, c.clients, n)
    else None
  }

  // ----- durable steps -----

  datatype Action =
    | Publish(roots: Roots, tree: Node)        // rename the staging directory to the new place
    | Retire(roots: Roots)                     // rename the legacy place to its backup
    | SaveOriginal(path: Path)                 // copy a client file to its backup
    | Persist(path: Path, content: Content)    // rename the rewritten client file into place

  function Apply(a: Action, n: Nodes): Nodes {
    match a
    case Publish(r, tree) => n[r.target := tree]
    case Retire(r) => if r.legacy in n then (n - {r.legacy})[Backup(r.legacy) := n[r.legacy]] else n
    case SaveOriginal(p) => if p in n then n[Backup(p) := n[p]] else n
    case Persist(p, t) => n[p := File(t)]
  }

  function ApplyAll(actions: seq<Action>, n: Nodes): Nodes {
    if actions == [] then n else ApplyAll(actions[1..], Apply(actions[0], n))
  }

  /** Every disk state a run of these steps passes through, first and last included. */
  ghost function States(actions: seq<Action>, n: Nodes): (s: set<Nodes>)
    ensures n in s
  {
    if actions == [] then {n} else {n} + States(actions[1..], Apply(actions[0], n))
  }

  /** What a run does: its durable steps in order, and whether it reports success. */
  datatype Plan = Plan(ok: bool, actions: seq<Action>)

  /** `migrate_data`. */
  function MigratePlan(c: Setup, n: Nodes, r: Roots): Plan {
    if !Validate(c, n, r) then Plan(false, [])
    else if r.legacy !in n then Plan(true, [])
    else if r.target in n then Plan(true, [Retire(r)])
    else
      var staged := Staged(c, r, n[r.legacy]);
      if staged.None? then Plan(false, []) else Plan(true, [Publish(r, staged.value), Retire(r)])
  }

  /** `backup_and_write`. */
  function EditPlan(n: Nodes, e: ClientEdit): seq<Action> {
    (if Backup(e.path) in n then [] else [SaveOriginal(e.path)]) + [Persist(e.path, e.content)]
  }

  function EditsPlan(n: Nodes, edits: seq<ClientEdit>): seq<Action>
    decreases |edits|
  {
    if edits == [] then []
    else
      var first := EditPlan(n, edits[0]);
      first + EditsPlan(ApplyAll(first, n), edits[1..])
  }

  /** One plan after another; a failure stops the run where it is. */
  function Then(first: Plan, second: Plan): Plan {
    if first.ok then Plan(second.ok, first.actions + second.actions) else first
  }

  function CachePlan(c: Setup, f: Flags, n: Nodes): Plan {
    var cache := ActiveCache(c, f, n);
    if cache.Some? then MigratePlan(c, n, cache.value) else Plan(true, [])
  }

  /** The home, then the clients. */
  function HomePlan(c: Setup, n: Nodes, edits: seq<ClientEdit>): Plan {
    var home := MigratePlan(c, n, c.home);
    Then(home, Plan(true, EditsPlan(ApplyAll(home.actions, n), edits)))
  }

  /** The cache first, then the home and the clients. */
  function WorkPlan(c: Setup, f: Flags, n: Nodes, edits: seq<ClientEdit>): Plan {
    var cache := CachePlan(c, f, n);
    Then(cache, HomePlan(c, ApplyAll(cache.actions, n), edits))
  }

  /** `run_with_cache`. */
  function RunPlan(c: Setup, f: Flags, n: Nodes): Plan {
    var checked := Checked(c, f, n);
    if checked.None? then Plan(false, [])
    else if f.dryRun || (c.home.legacy !in n && checked.value == []) then Plan(true, [])
    else WorkPlan(c, f, n, checked.value)
  }

  // ----- assumptions -----

  /** The three places a pair of roots uses. */
  function Places(r: Roots): set<Path> {
    {r.legacy, r.target, Backup(r.legacy)}
  }

  /**
   No two of the places the migration uses coincide. The disk holds a whole tree at each
   place, so a place inside another one is not modelled either.
   */
  ghost predicate Layout(c: Setup) {
    && c.home.target != Backup(c.home.legacy)
    && (c.cache.Some? ==>
          && c.cache.value.legacy != c.cache.value.target
          && c.cache.value.target != Backup(c.cache.value.legacy)
          && Places(c.home) !! Places(c.cache.value))
    && (forall i :: 0 <= i < |c.clients| ==> ClientApart(c, c.clients[i]))
    && (forall i, j :: 0 <= i < j < |c.clients| ==> ClientsApart(c.clients[i], c.clients[j]))
  }

  predicate ClientApart(c: Setup, p: Path) {
    && {p, Backup(p)} !! Places(c.home)
    && (c.cache.Some? ==> {p, Backup(p)} !! Places(c.cache.value))
  }

  predicate ClientsApart(p: Path, q: Path) {
    {p, Backup(p)} !! {q, Backup(q)}
  }

  /** A client file that has been rewritten needs no further rewriting. */
  ghost predicate Stable(c: Setup) {
    forall p, x :: c.rewrite(p, x).Rewrite? ==> c.rewrite(p, File(c.rewrite(p, x).content)) == Keep
  }
}
