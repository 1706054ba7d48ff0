/**
 What a registration leaves in the registry, what it is refused for, and what a lookup finds,
 each told from the declarations alone.
 */
module RegistryMeaning {
  import opened Options
  import opened Federation
  import opened ProjectRegistry
  import opened RegistryTheorems

  // ----- outcomes -----

  /** Another declaration has this checkout, and is not another part of the same repository. */
  ghost predicate Taken(canon: Path -> Path, projects: Projects, id: string, e: Entry, checkout: Path, other: string) {
    && other in projects && other != id
    && (exists i :: 0 <= i < |projects[other].checkouts| && canon(projects[other].checkouts[i]) == canon(checkout))
    && !(RepositoryIdentity(other) == RepositoryIdentity(id)
         && NormalRoot(if projects[other].projectRoot.Some? then projects[other].projectRoot.value else ".") !=
            NormalRoot(if e.projectRoot.Some? then e.projectRoot.value else "."))
  }

  /** A registration is refused for an unreadable registry or a checkout that is taken, and for nothing else. */
  lemma RegisterOutcome(canon: Path -> Path, projects: Projects, id: string, e: Entry, checkout: Option<Path>)
    requires CanonOk(canon)
    ensures Register(canon, projects, id, e, checkout) == Unreadable <==> !Readable(projects)
    ensures Register(canon, projects, id, e, checkout) == Conflict <==>
            Readable(projects) && checkout.Some? && exists other :: Taken(canon, projects, id, e, checkout.value, other)
    ensures Register(canon, projects, id, e, checkout).Done? <==>
            Readable(projects) && (checkout.Some? ==> forall other :: !Taken(canon, projects, id, e, checkout.value, other))
  {
    hide NormalRoot, RepositoryIdentity, Readable;
    if checkout.Some? {
      var own := WithCheckout(canon, e, checkout);
      forall other
        ensures Taken(canon, projects, id, e, checkout.value, other) <==>
                && other in projects && other != id
                && HasAlias(canon, projects[other].checkouts, canon(checkout.value)) && !MayShare(other, projects[other], id, own)
      {
      }
    }
  }

  /** A registry can be read when no root disagrees with the root in its id. */
  lemma ReadableExactly(projects: Projects)
    ensures Readable(projects) <==>
            forall id :: id in projects && IdRoot(id).Some? && projects[id].projectRoot.Some? ==>
              NormalRoot(IdRoot(id).value) == NormalRoot(projects[id].projectRoot.value)
  {
    hide NormalRoot, IdRoot;
    assert forall id :: id in projects ==> (RootAgrees(id, projects[id]) <==>
      (IdRoot(id).Some? && projects[id].projectRoot.Some? ==>
         NormalRoot(IdRoot(id).value) == NormalRoot(projects[id].projectRoot.value)));
  }

  /**
   What is stored: what the new declaration says, and where it says nothing what the stored
   one said; the aliases of both and the checkout; and nothing changes under any other id.
   */
  lemma {:induction false} RegisteredSays(canon: Path -> Path, projects: Projects, id: string, e: Entry, checkout: Option<Path>)
    requires CanonOk(canon) && Register(canon, projects, id, e, checkout).Done?
    ensures var after := Register(canon, projects, id, e, checkout).projects;
            var stored := if id in projects then Some(projects[id]) else None;
            && after.Keys == projects.Keys + {id}
            && (forall other :: other in projects && other != id ==> after[other] == projects[other])
            && after[id].wing == (if stored.Some? && Blank(e.wing) then stored.value.wing else e.wing)
            && after[id].rooms == (if stored.Some? && e.rooms == [] then stored.value.rooms else e.rooms)
            && after[id].routing == (if stored.Some? && e.routing.None? then stored.value.routing else e.routing)
            && after[id].projectRoot == (if stored.Some? && e.projectRoot.None? then stored.value.projectRoot else e.projectRoot)
            && (forall p :: HasAlias(canon, after[id].checkouts, p) <==>
                  || HasAlias(canon, e.checkouts, p)
                  || (checkout.Some? && canon(checkout.value) == canon(p))
                  || (stored.Some? && HasAlias(canon, stored.value.checkouts, p)))
  {
    hide HasAlias, Conflicts, Readable, Blank, MergeAliases;
    var own := WithCheckout(canon, e, checkout);
    forall p
      ensures HasAlias(canon, own.checkouts, p) <==>
              HasAlias(canon, e.checkouts, p) || (checkout.Some? && canon(checkout.value) == canon(p))
    {
      if checkout.Some? {
        AddAliasHas(canon, e.checkouts, canon(checkout.value), p);
      }
    }
    if id in projects {
      forall p
        ensures HasAlias(canon, MergeAliases(canon, own.checkouts, projects[id].checkouts), p) <==>
                HasAlias(canon, own.checkouts, p) || HasAlias(canon, projects[id].checkouts, p)
      {
        MergeHas(canon, own.checkouts, projects[id].checkouts, p);
      }
    }
  }

  /** A wing is blank when no character of it is visible. */
  lemma BlankExactly(front: string, c: char, back: string)
    ensures '!' <= c <= '~' ==> !Blank(front + [c] + back)
    ensures Blank(front) && c in " \t\n\r" && Blank(back) ==> Blank(front + [c] + back)
    ensures Blank("")
  {
    assert (front + [c] + back)[|front|] == c;
  }

  /** Removing takes out one id, if it is there, and nothing else. */
  lemma RemoveExactly(projects: Projects, id: string)
    ensures Remove(projects, id) == Unreadable <==> !Readable(projects)
    ensures Remove(projects, id).Done? <==> Readable(projects)
    ensures Remove(projects, id).Done? ==>
              var after := Remove(projects, id).projects;
              && after.Keys == projects.Keys - {id}
              && forall other :: other in projects && other != id ==> after[other] == projects[other]
  {
  }

  // ----- roots -----

  predicate AllSlashes(s: string) {
    forall i :: 0 <= i < |s| ==> s[i] == '/' || s[i] == '\\'
  }

  lemma SlashesAppend(a: string, b: string)
    ensures Slashes(a + b) == Slashes(a) + Slashes(b)
  {
  }

  lemma {:induction false} TrimSlashesStart(a: string, s: string)
    requires (forall i :: 0 <= i < |a| ==> a[i] == '/') && s != [] && s[0] != '/'
    ensures TrimSlashStart(a + s) == s
  {
    if a == [] {
      assert a + s == s;
    } else {
      assert (a + s)[1..] == a[1..] + s;
      TrimSlashesStart(a[1..], s);
    }
  }

  lemma {:induction false} TrimSlashesEnd(s: string, b: string)
    requires (forall i :: 0 <= i < |b| ==> b[i] == '/') && s != [] && s[|s| - 1] != '/'
    ensures TrimSlashEnd(s + b) == s
    decreases |b|
  {
    if b == [] {
      assert s + b == s;
    } else {
      assert (s + b)[..|s + b| - 1] == s + b[..|b| - 1];
      TrimSlashesEnd(s, b[..|b| - 1]);
    }
  }

  predicate NoSlash(c: char) {
    c != '/' && c != '\\'
  }

  /** Slashes of either kind around a root do not matter. */
  lemma {:induction false} SlashesAroundRoot(front: string, s: string, back: string)
    requires AllSlashes(front) && AllSlashes(back) && s != [] && NoSlash(s[0]) && NoSlash(s[|s| - 1])
    ensures NormalRoot(front + s + back) == var inner := TrimDotSlash(Slashes(s)); if inner == [] then "." else inner
  {
    SlashesAppend(front, s);
    SlashesAppend(front + s, back);
    TrimSlashesStart(Slashes(front), Slashes(s) + Slashes(back));
    assert (Slashes(front) + Slashes(s)) + Slashes(back) == Slashes(front) + (Slashes(s) + Slashes(back));
    TrimSlashesEnd(Slashes(s), Slashes(back));
  }

  /** So it is the same root with them and without. */
  lemma {:induction false} SameRootAround(front: string, s: string, back: string)
    requires AllSlashes(front) && AllSlashes(back) && s != [] && NoSlash(s[0]) && NoSlash(s[|s| - 1])
    ensures NormalRoot(front + s + back) == NormalRoot(s)
  {
    hide NormalRoot;
    SlashesAroundRoot(front, s, back);
    SlashesAroundRoot([], s, []);
    assert [] + s + [] == s;
  }

  lemma SlashesTwice(s: string)
    ensures Slashes(Slashes(s)) == Slashes(s)
  {
  }

  lemma DotSlash(s: string)
    ensures Slashes("./" + s) == "./" + Slashes(s)
    ensures TrimDotSlash("./" + s) == TrimDotSlash(s)
  {
    SlashesAppend("./", s);
    assert Slashes("./") == "./" && ("./" + s)[2..] == s;
  }

  /** Nor do current-directory steps in front, nor the kind of slash inside. */
  lemma {:induction false} SameRootBelowHere(s: string)
    requires s != [] && NoSlash(s[0]) && NoSlash(s[|s| - 1])
    ensures NormalRoot("./" + s) == NormalRoot(s)
    ensures NormalRoot(Slashes(s)) == NormalRoot(s)
  {
    hide NormalRoot, TrimDotSlash;
    assert [] + s + [] == s && [] + ("./" + s) + [] == "./" + s && [] + Slashes(s) + [] == Slashes(s);
    assert ("./" + s)[0] == '.';
    SlashesAroundRoot([], s, []);
    SlashesAroundRoot([], "./" + s, []);
    SlashesAroundRoot([], Slashes(s), []);
    SlashesTwice(s);
    DotSlash(s);
    DotSlash(Slashes(s));
  }

  lemma NothingToTrim(s: string)
    requires forall i :: 0 <= i < |s| ==> NoSlash(s[i])
    ensures Slashes(s) == s && TrimDotSlash(s) == s
  {
    assert |s| >= 2 ==> s[1] != '/';
  }

  /** And a plain name is a root as it is. */
  lemma {:induction false} PlainRoot(s: string)
    requires s != [] && forall i :: 0 <= i < |s| ==> NoSlash(s[i])
    ensures NormalRoot(s) == s
  {
    hide NormalRoot, TrimDotSlash, Slashes;
    NothingToTrim(s);
    SlashesAroundRoot([], s, []);
    assert [] + s + [] == s;
  }

  /** The root of the repository itself. */
  lemma RepositoryRoot()
    ensures NormalRoot("") == "." && NormalRoot("/") == "." && NormalRoot(".") == "."
  {
    assert Slashes("") == "" && Slashes("/") == "/" && Slashes(".") == ".";
  }

  // ----- lookup -----

  /**
   A declaration matches a path that is one of its checkouts; and, when it declares a root,
   the directory at that root of a repository with its identity, or of one of its checkouts.
   */
  lemma MatchesExactly(d: Discovery, id: string, e: Entry, path: Path)
    ensures Matches(d, id, e, path) <==>
            || (exists i :: 0 <= i < |e.checkouts| && d.canon(e.checkouts[i]) == d.canon(path))
            || (e.projectRoot.Some? && RootOfRepository(d, id, e.projectRoot.value, d.canon(path)))
            || (e.projectRoot.Some? && exists i :: 0 <= i < |e.checkouts| && RootOf(d, d.canon(e.checkouts[i]), e.projectRoot.value, d.canon(path)))
  {
    hide NormalRoot, RepositoryIdentity;
    if e.projectRoot.Some? {
      forall i | 0 <= i < |e.checkouts|
        ensures RootOf(d, d.canon(e.checkouts[i]), e.projectRoot.value, d.canon(path)) <==>
                && d.canon(e.checkouts[i]) <= d.canon(path)
                && NormalRoot(d.text(d.canon(path)[|d.canon(e.checkouts[i])|..])) == NormalRoot(e.projectRoot.value)
      {
      }
    }
  }

  /** `path` is the directory `root` of the directory `top`. */
  predicate RootOf(d: Discovery, top: Path, root: string, path: Path) {
    top <= path && NormalRoot(d.text(path[|top|..])) == NormalRoot(root)
  }

  predicate RootOfRepository(d: Discovery, id: string, root: string, path: Path) {
    && d.gitRoot(path).Some?
    && d.gitIdentity(d.gitRoot(path).value) == Some(RepositoryIdentity(id))
    && RootOf(d, d.gitRoot(path).value, root, path)
  }

  /**
   What a lookup finds: the one declaration that matches; nothing certain when two do; and
   when none does, the one hinted at, if it is declared and its identity is a repository's.
   */
  lemma {:induction false} LookupOutcome(d: Discovery, projects: Projects, path: Path, hint: Option<string>, id: string)
    ensures FindProjectId(d, projects, path, hint) == LookupUnreadable <==> !Readable(projects)
    ensures FindProjectId(d, projects, path, hint) == Ambiguous <==>
            && Readable(projects)
            && exists a, b :: a in projects && b in projects && a != b && Matches(d, a, projects[a], path) && Matches(d, b, projects[b], path)
    ensures FindProjectId(d, projects, path, hint) == Found(id) <==>
            && Readable(projects) && id in projects
            && (forall other :: other in projects && other != id ==> !Matches(d, other, projects[other], path))
            && (Matches(d, id, projects[id], path)
                || (hint == Some(id) && RepositoryIdentity(id) != "" && !("wing:" <= RepositoryIdentity(id))))
  {
    hide Matches, RepositoryIdentity, Readable;
    var ids := MatchingIds(d, projects, path);
    assert forall a :: a in ids <==> a in projects && Matches(d, a, projects[a], path);
    if a, b :| a in ids && b in ids && a != b {
      TwoElements(ids, a, b);
    } else {
      AtMostOne(ids);
      if ids == {} {
        assert InferSingle(ids).None?;
      } else {
        assert |ids| == 1 && ids == {InferSingle(ids).value};
      }
    }
  }

  lemma AtMostOne<T>(s: set<T>)
    requires forall a, b :: a in s && b in s ==> a == b
    ensures |s| <= 1
  {
    if a :| a in s {
      assert s == {a};
    }
  }
}
