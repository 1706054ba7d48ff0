/**
 The files, directories and links that the offline migration reads and writes.

 A directory lists its entries in the order the operating system reports them. A file
 holds raw bytes, or the migration marker in parsed form: the marker's JSON text is
 library behaviour and is not modelled.
 */
module FileTree {
  import opened Options

  /** An absolute path, as its list of component names. */
  type Path = seq<string>

  newtype Byte = x: int | 0 <= x < 256

  datatype Content =
    | Raw(bytes: seq<Byte>)
    | Marker(version: int, source: Path, destination: Path)

  /** One component of a link target: a name, or `..`. */
  datatype Step = Name(name: string) | Up

  datatype Node =
    | File(content: Content)
    | Dir(entries: seq<Entry>)
    | Link(absolute: bool, steps: seq<Step>)
    | Special

  datatype Entry = Entry(name: string, node: Node)

  /** The entry of that name, if the directory has one. */
  function Find(entries: seq<Entry>, name: string): (r: Option<Node>)
    ensures r.Some? <==> exists i :: 0 <= i < |entries| && entries[i].name == name
    ensures r.Some? ==> exists i :: 0 <= i < |entries| && entries[i] == Entry(name, r.value)
  {
    if entries == [] then None
    else if entries[0].name == name then
      assert entries[0] == Entry(name, entries[0].node);
      Some(entries[0].node)
    else
      var r := Find(entries[1..], name);
      assert r.Some? ==> exists i :: 0 <= i < |entries[1..]| && entries[1..][i] == Entry(name, r.value);
      assert forall i :: 0 <= i < |entries[1..]| ==> entries[1..][i] == entries[i + 1];
      assert forall i :: 1 <= i < |entries| ==> entries[i] == entries[1..][i - 1];
      r
  }

  /** Write a file into a directory: it replaces a file of that name, and a directory in its place is an error. */
  function WriteFile(entries: seq<Entry>, name: string, content: Content): (r: Option<seq<Entry>>)
    ensures r.Some? ==> Find(r.value, name) == Some(File(content))
    ensures r.None? <==> Find(entries, name).Some? && !Find(entries, name).value.File?
    ensures r.Some? ==> forall other :: other != name ==> Find(r.value, other) == Find(entries, other)
  {
    if entries == [] then
      var written := [Entry(name, File(content))];
      assert written[1..] == [];
      Some(written)
    else if entries[0].name == name then
      if entries[0].node.File? then
        var written := [Entry(name, File(content))] + entries[1..];
        assert written[1..] == entries[1..];
        Some(written)
      else None
    else
      var rest := WriteFile(entries[1..], name, content);
      if rest.None? then None
      else
        var written := [entries[0]] + rest.value;
        assert written[1..] == rest.value;
        Some(written)
  }
}
