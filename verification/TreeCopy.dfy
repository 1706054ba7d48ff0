/**
 The recursive copy of a legacy tree: it skips the top-level `bin`, copies files and
 directories, and puts the file a link leads to in the place of the link.
 */
module TreeCopy {
  import opened Options
  import opened FileTree

  // ----- looking a path up, and following links -----

  /** What stands at a path when no link is followed. */
  function NodeAt(root: Node, p: Path): Option<Node>
    decreases |p|
  {
    if p == [] then Some(root)
    else if !root.Dir? then None
    else
      var next := Find(root.entries, p[0]);
      if next.None? then None else NodeAt(next.value, p[1..])
  }

  /**
   `canonicalize`: walk from the real directory `cwd`, replacing each link met by its
   target; a dangling link, a file used as a directory, or more than `hops` links is an error.
   */
  function Canonicalise(root: Node, cwd: Path, steps: seq<Step>, hops: nat): Option<Path>
    decreases hops, |steps|
  {
    if steps == [] then Some(cwd)
    else
      match steps[0]
      case Up => Canonicalise(root, if cwd == [] then [] else cwd[..|cwd| - 1], steps[1..], hops)
      case Name(name) =>
        var node := NodeAt(root, cwd + [name]);
        if node.None? then None
        else if node.value.Link? then
          if hops == 0 then None
          else Canonicalise(root, if node.value.absolute then [] else cwd, node.value.steps + steps[1..], hops - 1)
        else if steps[1..] != [] && !node.value.Dir? then None
        else Canonicalise(root, cwd + [name], steps[1..], hops)
  }

  function Names(p: Path): seq<Step> {
    if p == [] then [] else [Name(p[0])] + Names(p[1..])
  }

  /** The contents of the regular file at a canonical path. */
  function FileAt(root: Node, p: Option<Path>): Option<Content> {
    if p.None? then None
    else
      var node := NodeAt(root, p.value);
      if node.Some? && node.value.File? then Some(node.value.content) else None
  }

  /** Reading a path the way a program does: through every link on the way. */
  function ReadThrough(root: Node, p: Path, hops: nat): Option<Content> {
    FileAt(root, Canonicalise(root, [], Names(p), hops))
  }

  // ----- the copy -----

  /** The file a link leads to, if it is a regular file inside the boundary. */
  function Materialise(root: Node, at: Path, name: string, boundary: Path, hops: nat): Option<Content> {
    var resolved := Canonicalise(root, at, [Name(name)], hops);
    if resolved.None? || !(boundary <= resolved.value) then None else FileAt(root, resolved)
  }

  /** The copy of one entry of the directory `at`. */
  function CopyNode(root: Node, at: Path, name: string, node: Node, boundary: Path, hops: nat): Option<Node>
    decreases node, 1
  {
    match node
    case Link(_, _) =>
      var content := Materialise(root, at, name, boundary, hops);
      if content.None? then None else Some(File(content.value))
    case Dir(entries) =>
      var copy := CopyEntries(root, at + [name], entries, false, boundary, hops);
      if copy.None? then None else Some(Dir(copy.value))
    case File(_) => Some(node)
    case Special => None
  }

  predicate Skipped(top: bool, name: string) {
    top && name == "bin"
  }

  /** The copies of these entries of the directory `at`. */
  function CopyEntries(root: Node, at: Path, entries: seq<Entry>, top: bool, boundary: Path, hops: nat): Option<seq<Entry>>
    decreases entries, 0
  {
    if entries == [] then Some([])
    else
      var rest := CopyEntries(root, at, entries[1..], top, boundary, hops);
      if Skipped(top, entries[0].name) then rest
      else
        var first := CopyNode(root, at, entries[0].name, entries[0].node, boundary, hops);
        if first.None? || rest.None? then None
        else Some([Entry(entries[0].name, first.value)] + rest.value)
  }

  /** The body of the copying loop for one entry that is not skipped. */
  method CopyEntry(root: Node, at: Path, entry: Entry, boundary: Path, hops: nat) returns (copied: Option<Node>)
    ensures copied == CopyNode(root, at, entry.name, entry.node, boundary, hops)
    decreases entry, 1
  {
    match entry.node
    case Link(_, _) =>
      var content := Materialise(root, at, entry.name, boundary, hops);
      return if content.None? then None else Some(File(content.value));
    case Dir(entries) =>
      var inner := CopyTreeWithin(root, at + [entry.name], entries, false, boundary, hops);
      return if inner.None? then None else Some(Dir(inner.value));
    case File(_) =>
      return Some(entry.node);
    case Special =>
      return None;
  }

  /** The copying loop of the source, which stops at the first entry it must refuse. */
  method CopyTreeWithin(root: Node, at: Path, entries: seq<Entry>, top: bool, boundary: Path, hops: nat)
    returns (copied: Option<seq<Entry>>)
    ensures copied == CopyEntries(root, at, entries, top, boundary, hops)
    decreases entries, 0
  {
    hide CopyNode;
    var target: seq<Entry> := [];
    assert entries[0..] == entries;
    ghost var all := CopyEntries(root, at, entries, top, boundary, hops);
    assert all.Some? ==> [] + all.value == all.value;
    for i := 0 to |entries|
      invariant all == Onto(target, CopyEntries(root, at, entries[i..], top, boundary, hops))
    {
      var entry := entries[i];
      assert entry in entries;
      OntoStep(root, at, entries[i..], top, boundary, hops, target);
      assert entries[i..][1..] == entries[i + 1..];
      if !Skipped(top, entry.name) {
        var node := CopyEntry(root, at, entry, boundary, hops);
        if node.None? {
          return None;
        }
        target := target + [Entry(entry.name, node.value)];
      }
    }
    assert entries[|entries|..] == [] && target + [] == target;
    return Some(target);
  }

  function Onto(done: seq<Entry>, rest: Option<seq<Entry>>): Option<seq<Entry>> {
    if rest.None? then None else Some(done + rest.value)
  }

  lemma {:induction false} OntoStep(root: Node, at: Path, entries: seq<Entry>, top: bool, boundary: Path, hops: nat, done: seq<Entry>)
    requires entries != []
    ensures var first := CopyNode(root, at, entries[0].name, entries[0].node, boundary, hops);
            var rest := CopyEntries(root, at, entries[1..], top, boundary, hops);
            Onto(done, CopyEntries(root, at, entries, top, boundary, hops)) ==
            if Skipped(top, entries[0].name) then Onto(done, rest)
            else if first.None? then None
            else Onto(done + [Entry(entries[0].name, first.value)], rest)
  {
    hide CopyNode;
    var first := CopyNode(root, at, entries[0].name, entries[0].node, boundary, hops);
    var rest := CopyEntries(root, at, entries[1..], top, boundary, hops);
    if first.Some? && rest.Some? {
      var one := [Entry(entries[0].name, first.value)];
      assert done + (one + rest.value) == done + one + rest.value;
    }
  }

  // ----- what the copy holds -----

  ghost predicate NoLinks(node: Node) {
    !node.Link? && (node.Dir? ==> forall e :: e in node.entries ==> NoLinks(e.node))
  }

  lemma {:induction false} CopyNodeHasNoLinks(root: Node, at: Path, name: string, node: Node, boundary: Path, hops: nat)
    requires CopyNode(root, at, name, node, boundary, hops).Some?
    ensures NoLinks(CopyNode(root, at, name, node, boundary, hops).value)
    decreases node, 1
  {
    if node.Dir? {
      CopyHasNoLinks(root, at + [name], node.entries, false, boundary, hops);
    }
  }

  /** No link remains in the copy. */
  lemma {:induction false} CopyHasNoLinks(root: Node, at: Path, entries: seq<Entry>, top: bool, boundary: Path, hops: nat)
    requires CopyEntries(root, at, entries, top, boundary, hops).Some?
    ensures NoLinks(Dir(CopyEntries(root, at, entries, top, boundary, hops).value))
    decreases entries, 0
  {
    if entries != [] {
      CopyHasNoLinks(root, at, entries[1..], top, boundary, hops);
      if !Skipped(top, entries[0].name) {
        CopyNodeHasNoLinks(root, at, entries[0].name, entries[0].node, boundary, hops);
      }
    }
  }

  /** An entry of the copy is the copy of the entry of that name. */
  lemma {:induction false} FindCopied(root: Node, at: Path, entries: seq<Entry>, top: bool, boundary: Path, hops: nat, name: string)
    requires CopyEntries(root, at, entries, top, boundary, hops).Some?
    requires !Skipped(top, name)
    ensures var copy := CopyEntries(root, at, entries, top, boundary, hops).value;
            var node := Find(entries, name);
            if node.None? then Find(copy, name).None?
            else Find(copy, name).Some? && Find(copy, name) == CopyNode(root, at, name, node.value, boundary, hops)
    decreases |entries|
  {
    if entries != [] {
      var copy := CopyEntries(root, at, entries, top, boundary, hops).value;
      FindCopied(root, at, entries[1..], top, boundary, hops, name);
      if !Skipped(top, entries[0].name) {
        assert copy[1..] == CopyEntries(root, at, entries[1..], top, boundary, hops).value;
      }
    }
  }

  // ----- reading the copy reads the source -----

  /** One real directory is walked without following anything. */
  lemma WalkDir(root: Node, cwd: Path, name: string, steps: seq<Step>, hops: nat)
    requires NodeAt(root, cwd + [name]).Some? && NodeAt(root, cwd + [name]).value.Dir?
    ensures Canonicalise(root, cwd, [Name(name)] + steps, hops) == Canonicalise(root, cwd + [name], steps, hops)
  {
    hide NodeAt;
    assert ([Name(name)] + steps)[1..] == steps;
  }

  /** And so is every path of them. */
  lemma {:induction false} WalkDirs(root: Node, cwd: Path, p: Path, steps: seq<Step>, hops: nat)
    requires NodeAt(root, cwd + p).Some? && NodeAt(root, cwd + p).value.Dir?
    ensures Canonicalise(root, cwd, Names(p) + steps, hops) == Canonicalise(root, cwd + p, steps, hops)
    decreases |p|
  {
    hide NodeAt, Canonicalise;
    if p == [] {
      assert cwd + p == cwd && Names(p) + steps == steps;
    } else {
      assert Names(p) + steps == [Name(p[0])] + (Names(p[1..]) + steps);
      assert cwd + p == (cwd + [p[0]]) + p[1..];
      PrefixIsDir(root, cwd + [p[0]], p[1..]);
      WalkDir(root, cwd, p[0], Names(p[1..]) + steps, hops);
      WalkDirs(root, cwd + [p[0]], p[1..], steps, hops);
    }
  }

  lemma {:induction false} NodeAtAppend(root: Node, p: Path, q: Path)
    ensures NodeAt(root, p + q) == (if NodeAt(root, p).None? then None else NodeAt(NodeAt(root, p).value, q))
    decreases |p|
  {
    if p == [] {
      assert p + q == q;
    } else {
      assert (p + q)[0] == p[0] && (p + q)[1..] == p[1..] + q;
      if root.Dir? && Find(root.entries, p[0]).Some? {
        NodeAtAppend(Find(root.entries, p[0]).value, p[1..], q);
      }
    }
  }

  lemma PrefixIsDir(root: Node, p: Path, q: Path)
    requires NodeAt(root, p + q).Some? && NodeAt(root, p + q).value.Dir?
    ensures NodeAt(root, p).Some? && NodeAt(root, p).value.Dir?
  {
    NodeAtAppend(root, p, q);
  }

  lemma ChildAt(root: Node, at: Path, name: string)
    requires NodeAt(root, at).Some? && NodeAt(root, at).value.Dir?
    ensures NodeAt(root, at + [name]) == Find(NodeAt(root, at).value.entries, name)
  {
    NodeAtAppend(root, at, [name]);
    assert [name][1..] == [];
  }

  /** One step of a walk: nothing there, or a real directory to go on from. */
  lemma {:induction false} WalkStep(root: Node, at: Path, rel: Path, hops: nat)
    requires rel != [] && NodeAt(root, at).Some? && NodeAt(root, at).value.Dir?
    ensures var next := Find(NodeAt(root, at).value.entries, rel[0]);
            && NodeAt(root, at + [rel[0]]) == next
            && (next.None? ==> Canonicalise(root, at, Names(rel), hops).None?)
            && (next.Some? && !next.value.Link? && (rel[1..] == [] || next.value.Dir?) ==>
                  Canonicalise(root, at, Names(rel), hops) == Canonicalise(root, at + [rel[0]], Names(rel[1..]), hops))
            && (next.Some? && !next.value.Link? && rel[1..] != [] && !next.value.Dir? ==>
                  Canonicalise(root, at, Names(rel), hops).None?)
  {
    ChildAt(root, at, rel[0]);
    assert Names(rel)[0] == Name(rel[0]) && Names(rel)[1..] == Names(rel[1..]);
  }

  lemma FileBelow(node: Node, rel: Path)
    requires node.Dir? && rel != []
    ensures var next := Find(node.entries, rel[0]);
            FileAt(node, Some(rel)) == if next.None? then None else FileAt(next.value, Some(rel[1..]))
  {
  }

  /**
   From any copied directory on: following a path from the source directory and looking it
   up in the copy give the same file, or neither gives one.
   */
  lemma {:induction false} CopyReadsAlike(root: Node, at: Path, top: bool, boundary: Path, hops: nat, rel: Path)
    requires NodeAt(root, at).Some? && NodeAt(root, at).value.Dir?
    requires CopyEntries(root, at, NodeAt(root, at).value.entries, top, boundary, hops).Some?
    requires rel != [] && !Skipped(top, rel[0])
    ensures var copy := CopyEntries(root, at, NodeAt(root, at).value.entries, top, boundary, hops).value;
            FileAt(Dir(copy), Some(rel)) == FileAt(root, Canonicalise(root, at, Names(rel), hops))
    decreases |rel|
  {
    hide FileAt, Canonicalise, Find;
    var entries := NodeAt(root, at).value.entries;
    var copy := CopyEntries(root, at, entries, top, boundary, hops).value;
    var name, rest := rel[0], rel[1..];
    FindCopied(root, at, entries, top, boundary, hops, name);
    FileBelow(Dir(copy), rel);
    WalkStep(root, at, rel, hops);
    var node := Find(entries, name);
    if node.None? {
      NoFile(root);
    } else if node.value.Dir? {
      if rest == [] {
        DirIsNoFile(root, at + [name], hops);
        DirIsNoFile(Find(copy, name).value, [], hops);
      } else {
        CopyReadsAlike(root, at + [name], false, boundary, hops, rest);
      }
    } else {
      assert Names(rel) == [Name(name)] + Names(rest);
      LeafReadsAlike(root, at, name, rest, node.value, boundary, hops);
    }
  }

  lemma NoFile(root: Node)
    ensures FileAt(root, None).None?
  {
  }

  lemma DirIsNoFile(root: Node, p: Path, hops: nat)
    requires NodeAt(root, p).Some? && NodeAt(root, p).value.Dir?
    ensures FileAt(root, Some(p)).None? && Canonicalise(root, p, Names([]), hops) == Some(p)
  {
  }

  /** A copied file or link: with nothing after it the same file, and with something after it nothing. */
  lemma {:induction false} LeafReadsAlike(root: Node, at: Path, name: string, rest: Path, node: Node, boundary: Path, hops: nat)
    requires NodeAt(root, at + [name]) == Some(node) && (node.File? || node.Link?)
    requires CopyNode(root, at, name, node, boundary, hops).Some?
    ensures var copy := CopyNode(root, at, name, node, boundary, hops).value;
            FileAt(copy, Some(rest)) == FileAt(root, Canonicalise(root, at, [Name(name)] + Names(rest), hops))
  {
    var steps := [Name(name)] + Names(rest);
    assert steps[0] == Name(name) && steps[1..] == Names(rest);
    if node.Link? {
      var one := [Name(name)];
      assert one[1..] == [];
      assert node.steps + [] == node.steps;
      if rest == [] {
        assert steps == one;
      } else {
        var cwd := if node.absolute then [] else at;
        assert Canonicalise(root, at, one, hops) == Canonicalise(root, cwd, node.steps, hops - 1);
        PastAFile(root, cwd, node.steps, Names(rest), hops - 1);
      }
    }
  }

  /** A walk that ends at a file cannot be continued by a name. */
  lemma {:induction false} PastAFile(root: Node, cwd: Path, steps: seq<Step>, more: seq<Step>, hops: nat)
    requires FileAt(root, Canonicalise(root, cwd, steps, hops)).Some?
    requires more != [] && more[0].Name?
    ensures FileAt(root, Canonicalise(root, cwd, steps + more, hops)).None?
    decreases hops, |steps|
  {
    if steps == [] {
      assert steps + more == more;
      NodeAtAppend(root, cwd, [more[0].name]);
      assert [more[0].name][1..] == [];
    } else {
      assert (steps + more)[0] == steps[0] && (steps + more)[1..] == steps[1..] + more;
      match steps[0]
      case Up =>
        PastAFile(root, if cwd == [] then [] else cwd[..|cwd| - 1], steps[1..], more, hops);
      case Name(name) =>
        var node := NodeAt(root, cwd + [name]).value;
        if node.Link? {
          assert node.steps + (steps[1..] + more) == (node.steps + steps[1..]) + more;
          PastAFile(root, if node.absolute then [] else cwd, node.steps + steps[1..], more, hops - 1);
        } else {
          PastAFile(root, cwd + [name], steps[1..], more, hops);
        }
    }
  }

  /**
   The copy preserves meaning. When copying the tree at the real path `from` succeeds, then
   for every path outside the top-level `bin`, looking it up in the copy gives the very file
   that reading it in the source, through all links, gives; and no link remains.
   */
  lemma {:induction false} CopyPreservesReading(root: Node, from: Path, hops: nat, rel: Path)
    requires NodeAt(root, from).Some? && NodeAt(root, from).value.Dir?
    requires CopyEntries(root, from, NodeAt(root, from).value.entries, true, from, hops).Some?
    requires rel != [] && rel[0] != "bin"
    ensures var copy := Dir(CopyEntries(root, from, NodeAt(root, from).value.entries, true, from, hops).value);
            && FileAt(copy, Some(rel)) == ReadThrough(root, from + rel, hops)
            && NoLinks(copy)
  {
    CopyReadsAlike(root, from, true, from, hops, rel);
    CopyHasNoLinks(root, from, NodeAt(root, from).value.entries, true, from, hops);
    assert [] + from == from;
    WalkDirs(root, [], from, Names(rel), hops);
    NamesAppend(from, rel);
  }

  lemma {:induction false} NamesAppend(p: Path, q: Path)
    ensures Names(p + q) == Names(p) + Names(q)
  {
    if p == [] {
      assert p + q == q;
    } else {
      assert (p + q)[0] == p[0] && (p + q)[1..] == p[1..] + q;
      NamesAppend(p[1..], q);
    }
  }

  // ----- reading the copy in its new place -----

  lemma {:induction false} LinklessWalk(root: Node, at: Path, node: Node, rel: Path, hops: nat)
    requires NodeAt(root, at) == Some(node) && NoLinks(node) && (rel == [] || node.Dir?)
    ensures FileAt(root, Canonicalise(root, at, Names(rel), hops)) == FileAt(node, Some(rel))
    decreases |rel|
  {
    if rel != [] {
      WalkStep(root, at, rel, hops);
      FileBelow(node, rel);
      var next := Find(node.entries, rel[0]);
      if next.Some? && (rel[1..] == [] || next.value.Dir?) {
        LinklessWalk(root, at + [rel[0]], next.value, rel[1..], hops);
      }
    }
  }

  /** Published at a real place of any later disk, the copy reads as the source did. */
  lemma {:induction false} PublishedCopyReadsAlike(root: Node, from: Path, later: Node, to: Path, hops: nat, rel: Path)
    requires NodeAt(root, from).Some? && NodeAt(root, from).value.Dir?
    requires CopyEntries(root, from, NodeAt(root, from).value.entries, true, from, hops).Some?
    requires NodeAt(later, to) == Some(Dir(CopyEntries(root, from, NodeAt(root, from).value.entries, true, from, hops).value))
    requires rel != [] && rel[0] != "bin"
    ensures ReadThrough(later, to + rel, hops) == ReadThrough(root, from + rel, hops)
  {
    CopyPreservesReading(root, from, hops, rel);
    assert [] + to == to;
    WalkDirs(later, [], to, Names(rel), hops);
    NamesAppend(to, rel);
    LinklessWalk(later, to, NodeAt(later, to).value, rel, hops);
  }

  // ----- when the copy is refused -----

  ghost predicate Distinct(entries: seq<Entry>) {
    forall i, j :: 0 <= i < j < |entries| ==> entries[i].name != entries[j].name
  }

  /** Names are distinct in every directory. */
  ghost predicate WellFormed(node: Node) {
    node.Dir? ==> Distinct(node.entries) && forall e :: e in node.entries ==> WellFormed(e.node)
  }

  /** A special file, or a link that does not resolve, leaves the boundary, or leads to no regular file. */
  ghost predicate Refused(root: Node, at: Path, name: string, node: Node, boundary: Path, hops: nat) {
    || node.Special?
    || (&& node.Link?
        && var to := Canonicalise(root, at, [Name(name)], hops);
           || to.None?
           || !(boundary <= to.value)
           || NodeAt(root, to.value).None?
           || !NodeAt(root, to.value).value.File?)
  }

  /** Walking `rel` from these entries through real directories ends at something refused. */
  ghost predicate RefusedAt(root: Node, at: Path, entries: seq<Entry>, top: bool, boundary: Path, hops: nat, rel: Path)
    decreases |rel|
  {
    && rel != [] && !Skipped(top, rel[0])
    && Find(entries, rel[0]).Some?
    && var node := Find(entries, rel[0]).value;
       if |rel| == 1 then Refused(root, at, rel[0], node, boundary, hops)
       else node.Dir? && RefusedAt(root, at + [rel[0]], node.entries, false, boundary, hops, rel[1..])
  }

  lemma {:induction false} FindDistinct(entries: seq<Entry>, i: int)
    requires Distinct(entries) && 0 <= i < |entries|
    ensures Find(entries, entries[i].name) == Some(entries[i].node)
  {
    if i > 0 {
      assert entries[0].name != entries[i].name;
      assert Distinct(entries[1..]) by {
        forall a, b | 0 <= a < b < |entries[1..]|
          ensures entries[1..][a].name != entries[1..][b].name
        {
          assert entries[a + 1].name != entries[b + 1].name;
        }
      }
      FindDistinct(entries[1..], i - 1);
    }
  }

  /** A refused entry somewhere makes the copy fail. */
  lemma {:induction false} RefusalFails(root: Node, at: Path, entries: seq<Entry>, top: bool, boundary: Path, hops: nat, rel: Path)
    requires RefusedAt(root, at, entries, top, boundary, hops, rel)
    ensures CopyEntries(root, at, entries, top, boundary, hops).None?
    decreases |rel|
  {
    if CopyEntries(root, at, entries, top, boundary, hops).Some? {
      FindCopied(root, at, entries, top, boundary, hops, rel[0]);
      var node := Find(entries, rel[0]).value;
      if |rel| > 1 {
        RefusalFails(root, at + [rel[0]], node.entries, false, boundary, hops, rel[1..]);
      }
    }
  }

  /** A copy that fails has met a refused entry. */
  lemma {:induction false} FailureHasRefusal(root: Node, at: Path, entries: seq<Entry>, top: bool, boundary: Path, hops: nat)
    returns (rel: Path)
    requires WellFormed(Dir(entries))
    requires CopyEntries(root, at, entries, top, boundary, hops).None?
    ensures RefusedAt(root, at, entries, top, boundary, hops, rel)
    decreases entries
  {
    var k := FailingEntry(root, at, entries, top, boundary, hops);
    var name, node := entries[k].name, entries[k].node;
    FindDistinct(entries, k);
    if node.Dir? {
      assert entries[k] in entries;
      var inner := FailureHasRefusal(root, at + [name], node.entries, false, boundary, hops);
      rel := [name] + inner;
      assert rel[1..] == inner;
    } else {
      rel := [name];
    }
  }

  lemma {:induction false} FailingEntry(root: Node, at: Path, entries: seq<Entry>, top: bool, boundary: Path, hops: nat)
    returns (k: nat)
    requires CopyEntries(root, at, entries, top, boundary, hops).None?
    ensures k < |entries| && !Skipped(top, entries[k].name)
    ensures CopyNode(root, at, entries[k].name, entries[k].node, boundary, hops).None?
  {
    if CopyEntries(root, at, entries[1..], top, boundary, hops).None? {
      var j := FailingEntry(root, at, entries[1..], top, boundary, hops);
      k := j + 1;
    } else {
      k := 0;
    }
  }

  ghost predicate Refusal(root: Node, from: Path, hops: nat, rel: Path) {
    && NodeAt(root, from).Some? && NodeAt(root, from).value.Dir?
    && RefusedAt(root, from, NodeAt(root, from).value.entries, true, from, hops, rel)
  }

  /**
   The copy fails exactly when, outside the top-level `bin`, some entry reached through real
   directories is a special file or a link that does not lead to a regular file inside the
   source.
   */
  lemma CopyFailsExactly(root: Node, from: Path, hops: nat)
    requires NodeAt(root, from).Some? && NodeAt(root, from).value.Dir? && WellFormed(NodeAt(root, from).value)
    ensures CopyEntries(root, from, NodeAt(root, from).value.entries, true, from, hops).None? <==>
            exists rel :: Refusal(root, from, hops, rel)
  {
    var entries := NodeAt(root, from).value.entries;
    if CopyEntries(root, from, entries, true, from, hops).None? {
      var rel := FailureHasRefusal(root, from, entries, true, from, hops);
      assert Refusal(root, from, hops, rel);
    } else {
      forall rel
        ensures !Refusal(root, from, hops, rel)
      {
        if RefusedAt(root, from, entries, true, from, hops, rel) {
          RefusalFails(root, from, entries, true, from, hops, rel);
        }
      }
    }
  }

  /** What stands at a path below these entries, if refused, is reached by the walk. */
  lemma {:induction false} RefusedWhereItStands(root: Node, at: Path, entries: seq<Entry>, top: bool, boundary: Path, hops: nat, rel: Path)
    requires rel != [] && !Skipped(top, rel[0])
    requires NodeAt(Dir(entries), rel).Some?
    requires Refused(root, at + rel[..|rel| - 1], rel[|rel| - 1], NodeAt(Dir(entries), rel).value, boundary, hops)
    ensures RefusedAt(root, at, entries, top, boundary, hops, rel)
    decreases |rel|
  {
    hide Refused;
    var node := Find(entries, rel[0]).value;
    if |rel| == 1 {
      assert at + rel[..0] == at;
    } else {
      var more := rel[1..];
      assert (at + [rel[0]]) + more[..|more| - 1] == at + rel[..|rel| - 1];
      assert more[|more| - 1] == rel[|rel| - 1];
      RefusedWhereItStands(root, at + [rel[0]], node.entries, false, boundary, hops, more);
    }
  }

  /**
   Nothing from outside is ever copied in: of a copy that succeeds, every link of the source
   outside `bin` resolved to a regular file inside the source, and every other entry is a
   directory or a regular file.
   */
  lemma {:induction false} CopiedFromInside(root: Node, from: Path, hops: nat, rel: Path)
    requires NodeAt(root, from).Some? && NodeAt(root, from).value.Dir?
    requires CopyEntries(root, from, NodeAt(root, from).value.entries, true, from, hops).Some?
    requires rel != [] && rel[0] != "bin" && NodeAt(root, from + rel).Some?
    ensures !NodeAt(root, from + rel).value.Special?
    ensures NodeAt(root, from + rel).value.Link? ==>
              var to := Canonicalise(root, from + rel[..|rel| - 1], [Name(rel[|rel| - 1])], hops);
              && to.Some? && from <= to.value
              && NodeAt(root, to.value).Some? && NodeAt(root, to.value).value.File?
  {
    var entries := NodeAt(root, from).value.entries;
    NodeAtAppend(root, from, rel);
    if Refused(root, from + rel[..|rel| - 1], rel[|rel| - 1], NodeAt(root, from + rel).value, from, hops) {
      RefusedWhereItStands(root, from, entries, true, from, hops, rel);
      RefusalFails(root, from, entries, true, from, hops, rel);
    }
  }

  /** Resolution step by step: `..` goes up, and a link is replaced by its target, from the top or from where it stands. */
  lemma ResolutionSteps(root: Node, cwd: Path, name: string, target: seq<Step>, steps: seq<Step>, hops: nat)
    ensures Canonicalise(root, cwd + [name], [Up] + steps, hops) == Canonicalise(root, cwd, steps, hops)
    ensures NodeAt(root, cwd + [name]) == Some(Link(true, target)) ==>
              Canonicalise(root, cwd, [Name(name)] + steps, hops + 1) == Canonicalise(root, [], target + steps, hops)
    ensures NodeAt(root, cwd + [name]) == Some(Link(false, target)) ==>
              Canonicalise(root, cwd, [Name(name)] + steps, hops + 1) == Canonicalise(root, cwd, target + steps, hops)
    ensures NodeAt(root, cwd + [name]).None? ==> Canonicalise(root, cwd, [Name(name)] + steps, hops).None?
  {
    hide NodeAt;
    assert (cwd + [name])[..|cwd|] == cwd;
    assert ([Up] + steps)[1..] == steps && ([Name(name)] + steps)[1..] == steps;
  }

  /** A resolved path is one without links: something stands there, and it is no link. */
  lemma {:induction false} CanonicalPathIsReal(root: Node, cwd: Path, steps: seq<Step>, hops: nat)
    requires NodeAt(root, cwd).Some? && NodeAt(root, cwd).value.Dir?
    requires Canonicalise(root, cwd, steps, hops).Some?
    ensures var p := Canonicalise(root, cwd, steps, hops).value;
            NodeAt(root, p).Some? && !NodeAt(root, p).value.Link?
    decreases hops, |steps|
  {
    if steps != [] {
      match steps[0]
      case Up =>
        var up := if cwd == [] then [] else cwd[..|cwd| - 1];
        assert cwd != [] ==> up + [cwd[|cwd| - 1]] == cwd;
        if cwd != [] {
          PrefixIsDir(root, up, [cwd[|cwd| - 1]]);
        }
        CanonicalPathIsReal(root, up, steps[1..], hops);
      case Name(name) =>
        var node := NodeAt(root, cwd + [name]);
        if node.value.Link? {
          CanonicalPathIsReal(root, if node.value.absolute then [] else cwd, node.value.steps + steps[1..], hops - 1);
        } else if node.value.Dir? {
          CanonicalPathIsReal(root, cwd + [name], steps[1..], hops);
        }
    }
  }
}
