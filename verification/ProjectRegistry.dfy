/**
 The project registry: declarations under durable ids, found again through checkout
 aliases. `canon` stands for path canonicalisation, which leaves a path it cannot resolve
 as it is; the filesystem is taken as fixed, so `canon` is idempotent.
 */
module ProjectRegistry {
  import opened Options
  import opened Federation

  type Path = seq<string>

  datatype Room = Room(name: string, description: Option<string>, keywords: seq<string>)

  datatype Entry = Entry(
    wing: string, rooms: seq<Room>, routing: Option<RuleV1>,
    checkouts: seq<Path>, projectRoot: Option<string>)

  type Projects = map<string, Entry>

  // ----- names and roots -----

  function Index(s: string, c: char): (i: nat)
    ensures i <= |s| && c !in s[..i] && (i < |s| ==> s[i] == c)
  {
    if s == [] || s[0] == c then 0
    else
      var k := Index(s[1..], c);
      assert s[..k + 1] == [s[0]] + s[1..][..k];
      k + 1
  }

  /** The part of an id before `#`. */
  function RepositoryIdentity(id: string): string {
    id[..Index(id, '#')]
  }

  /** The part of an id after `#`, if there is one. */
  function IdRoot(id: string): Option<string> {
    if Index(id, '#') < |id| then Some(id[Index(id, '#') + 1..]) else None
  }

  function Slashes(s: string): string {
    seq(|s|, i requires 0 <= i < |s| => if s[i] == '\\' then '/' else s[i])
  }

  function TrimSlashStart(s: string): string {
    if s != [] && s[0] == '/' then TrimSlashStart(s[1..]) else s
  }

  function TrimSlashEnd(s: string): string {
    if s != [] && s[|s| - 1] == '/' then TrimSlashEnd(s[..|s| - 1]) else s
  }

  function TrimDotSlash(s: string): string {
    if "./" <= s then TrimDotSlash(s[2..]) else s
  }

  /** `normalize_project_root`. */
  function NormalRoot(value: string): string {
    var s := TrimDotSlash(TrimSlashEnd(TrimSlashStart(Slashes(value))));
    if s == [] then "." else s
  }

  function Root(e: Entry): string {
    NormalRoot(if e.projectRoot.Some? then e.projectRoot.value else ".")
  }

  // ----- aliases -----

  ghost predicate CanonOk(canon: Path -> Path) {
    forall p :: canon(canon(p)) == canon(p)
  }

  predicate HasAlias(canon: Path -> Path, checkouts: seq<Path>, p: Path) {
    exists i :: 0 <= i < |checkouts| && canon(checkouts[i]) == canon(p)
  }

  /** Add an alias unless it is there already, up to canonicalisation. */
  function AddAlias(canon: Path -> Path, checkouts: seq<Path>, p: Path): seq<Path> {
    if HasAlias(canon, checkouts, p) then checkouts else checkouts + [p]
  }

  function MergeAliases(canon: Path -> Path, mine: seq<Path>, theirs: seq<Path>): seq<Path>
    decreases |theirs|
  {
    if theirs == [] then mine else MergeAliases(canon, AddAlias(canon, mine, theirs[0]), theirs[1..])
  }

  // ----- registering -----

  function WithCheckout(canon: Path -> Path, e: Entry, checkout: Option<Path>): Entry {
    if checkout.None? then e
    else e.(checkouts := AddAlias(canon, e.checkouts, canon(checkout.value)))
  }

  /** White space as Unicode defines it, which is what trimming takes off. */
  predicate White(c: char) {
    || '\U{9}' <= c <= '\U{D}' || c == ' ' || c == '\U{85}' || c == '\U{A0}' || c == '\U{1680}'
    || '\U{2000}' <= c <= '\U{200A}' || c == '\U{2028}' || c == '\U{2029}' || c == '\U{202F}'
    || c == '\U{205F}' || c == '\U{3000}'
  }

  predicate Blank(s: string) {
    forall i :: 0 <= i < |s| ==> White(s[i])
  }

  /** What the new declaration leaves out is taken from the stored one. */
  function Merge(canon: Path -> Path, e: Entry, stored: Entry): Entry {
    Entry(if Blank(e.wing) then stored.wing else e.wing,
          if e.rooms == [] then stored.rooms else e.rooms,
          if e.routing.None? then stored.routing else e.routing,
          MergeAliases(canon, e.checkouts, stored.checkouts),
          if e.projectRoot.None? then stored.projectRoot else e.projectRoot)
  }

  /** `shared_monorepo_checkout`. */
  predicate MayShare(idA: string, a: Entry, idB: string, b: Entry) {
    RepositoryIdentity(idA) == RepositoryIdentity(idB) && Root(a) != Root(b)
  }

  predicate Conflicts(canon: Path -> Path, projects: Projects, id: string, e: Entry, checkout: Path) {
    exists other :: other in projects && other != id
      && HasAlias(canon, projects[other].checkouts, checkout) && !MayShare(other, projects[other], id, e)
  }

  predicate RootAgrees(id: string, e: Entry) {
    IdRoot(id).Some? && e.projectRoot.Some? ==> NormalRoot(IdRoot(id).value) == NormalRoot(e.projectRoot.value)
  }

  /** Whether the registry file passes the check made when it is read. */
  predicate Readable(projects: Projects) {
    forall id :: id in projects ==> RootAgrees(id, projects[id])
  }

  datatype Outcome = Done(projects: Projects) | Unreadable | Conflict

  function Declared(canon: Path -> Path, projects: Projects, id: string, e: Entry, checkout: Option<Path>): Entry {
    var own := WithCheckout(canon, e, checkout);
    if id in projects then Merge(canon, own, projects[id]) else own
  }

  /** `register_project`. */
  function Register(canon: Path -> Path, projects: Projects, id: string, e: Entry, checkout: Option<Path>): Outcome {
    var own := WithCheckout(canon, e, checkout);
    if !Readable(projects) then Unreadable
    else if checkout.Some? && Conflicts(canon, projects, id, own, canon(checkout.value)) then Conflict
    else Done(projects[id := Declared(canon, projects, id, e, checkout)])
  }

  /** `remove_project`. */
  function Remove(projects: Projects, id: string): Outcome {
    if !Readable(projects) then Unreadable else Done(projects - {id})
  }

  /** The registry as an outcome leaves it. */
  function After(projects: Projects, outcome: Outcome): Projects {
    if outcome.Done? then outcome.projects else projects
  }

  class Registry {
    var projects: Projects
    const canon: Path -> Path

    constructor (canon: Path -> Path)
      ensures projects == map[] && this.canon == canon
    {
      this.canon := canon;
      projects := map[];
    }

    method RegisterProject(id: string, e: Entry, checkout: Option<Path>) returns (outcome: Outcome)
      modifies this
      ensures outcome == Register(canon, old(projects), id, e, checkout)
      ensures projects == After(old(projects), outcome)
    {
      hide HasAlias, MayShare, MergeAliases;
      var own := e;
      if checkout.Some? {
        own := own.(checkouts := AddAlias(canon, own.checkouts, canon(checkout.value)));
      }
      if !Readable(projects) {
        return Unreadable;
      }
      if checkout.Some? {
        var left := projects.Keys;
        while left != {}
          invariant left <= projects.Keys
          invariant forall other :: other in projects.Keys - left ==>
                      other == id || !HasAlias(canon, projects[other].checkouts, canon(checkout.value))
                      || MayShare(other, projects[other], id, own)
          decreases left
        {
          var other :| other in left;
          if other != id && HasAlias(canon, projects[other].checkouts, canon(checkout.value))
             && !MayShare(other, projects[other], id, own) {
            return Conflict;
          }
          left := left - {other};
        }
      }
      if id in projects {
        var stored := projects[id];
        if Blank(own.wing) {
          own := own.(wing := stored.wing);
        }
        if own.rooms == [] {
          own := own.(rooms := stored.rooms);
        }
        if own.routing.None? {
          own := own.(routing := stored.routing);
        }
        var merged := MergeLoop(canon, own.checkouts, stored.checkouts);
        own := own.(checkouts := merged);
        if own.projectRoot.None? {
          own := own.(projectRoot := stored.projectRoot);
        }
      }
      projects := projects[id := own];
      return Done(projects);
    }

    method RemoveProject(id: string) returns (outcome: Outcome)
      modifies this
      ensures outcome == Remove(old(projects), id)
      ensures projects == After(old(projects), outcome)
    {
      if !Readable(projects) {
        return Unreadable;
      }
      if id in projects {
        projects := projects - {id};
      } else {
        assert projects - {id} == projects;
      }
      return Done(projects);
    }
  }

  method MergeLoop(canon: Path -> Path, mine: seq<Path>, theirs: seq<Path>) returns (merged: seq<Path>)
    ensures merged == MergeAliases(canon, mine, theirs)
  {
    merged := mine;
    assert theirs[0..] == theirs;
    for i := 0 to |theirs|
      invariant MergeAliases(canon, merged, theirs[i..]) == MergeAliases(canon, mine, theirs)
    {
      assert theirs[i..][0] == theirs[i] && theirs[i..][1..] == theirs[i + 1..];
      if !HasAlias(canon, merged, theirs[i]) {
        merged := merged + [theirs[i]];
      }
    }
    assert theirs[|theirs|..] == [];
  }
}
