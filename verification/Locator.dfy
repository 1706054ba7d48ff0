/**
 Lazy resolution of locator-backed records: chunk text is read back from the checkout, and
 only while the file is still the one that was mined.
 */
module Locator {
  import opened Options
  import opened FileTree
  import Ids

  type Bytes = seq<Byte>

  /** The host's files, and the library functions that resolution calls. */
  datatype Host = Host(
    space: char -> bool,
    canonical: string -> Option<Path>,
    canonicalUnder: (Path, string) -> Option<Path>,
    contents: Path -> Option<Bytes>,
    hash: Bytes -> string,
    utf8: Bytes -> Option<string>)

  datatype SourceLocator = SourceLocator(
    byteStart: nat, byteEnd: nat, lineStart: nat, lineEnd: nat,
    fileHash: string, resolveRoot: string, commitHash: Option<string>)

  datatype Record = Record(id: string, sourceFile: string, content: string, locator: Option<SourceLocator>)

  datatype Snippet = Snippet(text: string, stale: bool)

  type Key = (string, string)

  /** Read a target only when it stays within the resolve root. */
  function ReadLocatorFile(h: Host, root: string, file: string): Option<Bytes> {
    if Ids.Trim(h.space, root) == "" || h.canonical(root).None? then None
    else
      var base := h.canonical(root).value;
      var path := h.canonicalUnder(base, file);
      if path.None? || !(base <= path.value) then None else h.contents(path.value)
  }

  function MissingText(file: string): string {
    "[stale] " + file + " missing; re-run mine"
  }

  function ChangedText(file: string): string {
    "[stale] " + file + " changed since mining; re-run mine"
  }

  /** The chunk, if the range lies in the file and is text. */
  function Slice(h: Host, l: SourceLocator, bytes: Bytes): Option<string> {
    if l.byteStart <= l.byteEnd <= |bytes| then h.utf8(bytes[l.byteStart..l.byteEnd]) else None
  }

  /** `resolve_from_bytes`. */
  function ResolveFromBytes(h: Host, l: SourceLocator, file: string, bytes: Option<Bytes>, digest: Option<string>): Snippet {
    if bytes.None? then Snippet(MissingText(file), true)
    else if digest == Some(l.fileHash) && Slice(h, l, bytes.value).Some? then
      Snippet(Slice(h, l, bytes.value).value, false)
    else Snippet(ChangedText(file), true)
  }

  function Digest(h: Host, bytes: Option<Bytes>): Option<string> {
    if bytes.None? then None else Some(h.hash(bytes.value))
  }

  /** `resolve_locator`: the simple resolver, one read a record. */
  function ResolveLocator(h: Host, l: SourceLocator, file: string): Snippet {
    var bytes := ReadLocatorFile(h, l.resolveRoot, file);
    ResolveFromBytes(h, l, file, bytes, Digest(h, bytes))
  }

  // ----- what the simple resolver gives -----

  function Resolved(h: Host, r: Record): Record {
    if r.locator.None? then r else r.(content := ResolveLocator(h, r.locator.value, r.sourceFile).text)
  }

  function Stale(h: Host, r: Record): bool {
    r.locator.Some? && ResolveLocator(h, r.locator.value, r.sourceFile).stale
  }

  /** This text is the mined range of the mined file, which lies inside the resolve root. */
  ghost predicate Fresh(h: Host, l: SourceLocator, file: string, base: Path, path: Path, text: string) {
    && Ids.Trim(h.space, l.resolveRoot) != ""
    && h.canonical(l.resolveRoot) == Some(base)
    && h.canonicalUnder(base, file) == Some(path)
    && base <= path
    && h.contents(path).Some?
    && h.hash(h.contents(path).value) == l.fileHash
    && l.byteStart <= l.byteEnd <= |h.contents(path).value|
    && h.utf8(h.contents(path).value[l.byteStart..l.byteEnd]) == Some(text)
  }

  /**
   What is returned as fresh is the mined range of a file inside the resolve root whose
   digest is the mined one; whatever is stale is one of two fixed notices that hold nothing
   of the file.
   */
  lemma FreshOrNotice(h: Host, l: SourceLocator, file: string)
    ensures var s := ResolveLocator(h, l, file);
            if s.stale then s.text == MissingText(file) || s.text == ChangedText(file)
            else exists base, path :: Fresh(h, l, file, base, path, s.text)
  {
    hide MissingText, ChangedText, Ids.Trim;
    var s := ResolveLocator(h, l, file);
    if !s.stale {
      var base := h.canonical(l.resolveRoot).value;
      var path := h.canonicalUnder(base, file).value;
      assert Fresh(h, l, file, base, path, s.text);
    }
  }

  /** Which notice: the file is missing when it cannot be read inside the root, and has changed when it can. */
  lemma NoticeExactly(h: Host, l: SourceLocator, file: string)
    ensures var s := ResolveLocator(h, l, file);
            var readable := exists base, path :: Readable(h, l, file, base, path);
            && (!readable ==> s == Snippet("[stale] " + file + " missing; re-run mine", true))
            && (readable && s.stale ==> s.text == "[stale] " + file + " changed since mining; re-run mine")
  {
    hide Ids.Trim;
    if ReadLocatorFile(h, l.resolveRoot, file).Some? {
      var base := h.canonical(l.resolveRoot).value;
      assert Readable(h, l, file, base, h.canonicalUnder(base, file).value);
    }
  }

  /** The file can be read, at a place inside the resolve root. */
  ghost predicate Readable(h: Host, l: SourceLocator, file: string, base: Path, path: Path) {
    && Ids.Trim(h.space, l.resolveRoot) != ""
    && h.canonical(l.resolveRoot) == Some(base)
    && h.canonicalUnder(base, file) == Some(path)
    && base <= path
    && h.contents(path).Some?
  }

  /** And a record whose file is still the mined one is never called stale. */
  lemma FreshIsReturned(h: Host, l: SourceLocator, file: string, base: Path, path: Path, text: string)
    requires Fresh(h, l, file, base, path, text)
    ensures ResolveLocator(h, l, file) == Snippet(text, false)
  {
    hide MissingText, ChangedText, Ids.Trim;
    assert ReadLocatorFile(h, l.resolveRoot, file) == h.contents(path);
  }

  /** Resolving again gives the same text and the same flag. */
  lemma ResolvedTwice(h: Host, r: Record)
    ensures Resolved(h, Resolved(h, r)) == Resolved(h, r) && Stale(h, Resolved(h, r)) == Stale(h, r)
  {
  }

  // ----- the memoised resolver -----

  /** The file reads made, in order. */
  class ReadLog {
    ghost var history: seq<Key>

    method Read(h: Host, key: Key) returns (bytes: Option<Bytes>)
      modifies this
      ensures bytes == ReadLocatorFile(h, key.0, key.1)
      ensures history == old(history) + [key]
    {
      history := history + [key];
      bytes := ReadLocatorFile(h, key.0, key.1);
    }
  }

  function KeyOf(r: Record): Key
    requires r.locator.Some?
  {
    (r.locator.value.resolveRoot, r.sourceFile)
  }

  /** The files that these records need. */
  ghost function Needed(records: seq<Record>): set<Key> {
    set i | 0 <= i < |records| && records[i].locator.Some? :: KeyOf(records[i])
  }

  ghost predicate Distinct(keys: seq<Key>) {
    forall i, j :: 0 <= i < j < |keys| ==> keys[i] != keys[j]
  }

  datatype Cached = Cached(bytes: Option<Bytes>, digest: Option<string>)

  ghost predicate CacheOk(h: Host, cache: map<Key, Cached>) {
    forall k :: k in cache ==>
      cache[k] == Cached(ReadLocatorFile(h, k.0, k.1), Digest(h, ReadLocatorFile(h, k.0, k.1)))
  }

  lemma NeededMore(records: seq<Record>, i: nat)
    requires i < |records|
    ensures Needed(records[..i + 1]) ==
            Needed(records[..i]) + (if records[i].locator.Some? then {KeyOf(records[i])} else {})
  {
    var before, after := records[..i], records[..i + 1];
    forall k | k in Needed(after)
      ensures k in Needed(before) + (if records[i].locator.Some? then {KeyOf(records[i])} else {})
    {
      var j :| 0 <= j < |after| && after[j].locator.Some? && KeyOf(after[j]) == k;
      if j < i {
        assert before[j] == after[j];
      }
    }
    forall k | k in Needed(before)
      ensures k in Needed(after)
    {
      var j :| 0 <= j < |before| && before[j].locator.Some? && KeyOf(before[j]) == k;
      assert after[j] == before[j];
    }
    assert after[i] == records[i];
  }

  /**
   `resolve_records`: in place, with one read a file. Each record ends up as the simple
   resolver would leave it, the flags are its flags, and the reads made are exactly the
   files needed, each once.
   */
  method ResolveRecords(h: Host, records: array<Record>, log: ReadLog) returns (stale: seq<bool>)
    modifies records, log
    ensures |stale| == records.Length
    ensures forall i :: 0 <= i < records.Length ==> records[i] == Resolved(h, old(records[i])) && stale[i] == Stale(h, old(records[i]))
    ensures old(log.history) <= log.history
    ensures Distinct(log.history[|old(log.history)|..])
    ensures forall k :: k in log.history[|old(log.history)|..] <==> k in Needed(old(records[..]))
  {
    hide ReadLocatorFile, ResolveFromBytes, Needed;
    ghost var before := records[..];
    ghost var made: seq<Key> := [];
    var cache: map<Key, Cached> := map[];
    stale := [];
    NothingNeeded();
    for i := 0 to records.Length
      invariant |stale| == i
      invariant forall j :: i <= j < records.Length ==> records[j] == before[j]
      invariant forall j :: 0 <= j < i ==> records[j] == Resolved(h, before[j]) && stale[j] == Stale(h, before[j])
      invariant CacheOk(h, cache) && cache.Keys == Needed(before[..i])
      invariant log.history == old(log.history) + made && Distinct(made)
      invariant forall k :: k in made <==> k in cache
    {
      var record := records[i];
      NeededMore(before, i);
      if record.locator.None? {
        stale := stale + [false];
        continue;
      }
      var locator := record.locator.value;
      var key := KeyOf(record);
      if key !in cache {
        var bytes := log.Read(h, key);
        cache := cache[key := Cached(bytes, Digest(h, bytes))];
        made := made + [key];
      }
      var snippet := ResolveFromBytes(h, locator, record.sourceFile, cache[key].bytes, cache[key].digest);
      stale := stale + [snippet.stale];
      records[i] := record.(content := snippet.text);
    }
    assert before[..records.Length] == before;
    assert log.history[|old(log.history)|..] == made;
  }

  lemma NothingNeeded()
    ensures forall s: seq<Record> :: s == [] ==> Needed(s) == {}
  {
  }

  /** A record keeps everything but its text, and one without a locator keeps that too and is never stale. */
  lemma ResolvedKeeps(h: Host, r: Record)
    ensures var now := Resolved(h, r);
            && now.id == r.id && now.sourceFile == r.sourceFile && now.locator == r.locator
            && (r.locator.None? ==> now.content == r.content && !Stale(h, r))
            && (r.locator.Some? ==>
                  && now.content == ResolveLocator(h, r.locator.value, r.sourceFile).text
                  && Stale(h, r) == ResolveLocator(h, r.locator.value, r.sourceFile).stale)
  {
  }
}
