/**
 Rewriting one path text from the legacy home to the new one. How a text is split into
 components and printed again is library behaviour, given by `PathTexts`.
 */
module PathRemap {
  import opened Options
  import opened FileTree
  import opened MigrationPlan

  /**
   - `parse` gives the components of an absolute path, and `None` for a relative one;
   - `split` gives the components of a relative path;
   - `render` prints an absolute path;
   - `home` is the user's home directory.
   */
  datatype PathTexts = PathTexts(parse: string -> Option<Path>, split: string -> Path, render: Path -> string, home: Path)

  const TILDE := "~/.mempalace"

  /** A path that can be printed and read back: no component is empty, `.`, or has a separator in it. */
  predicate Proper(p: Path) {
    forall i :: 0 <= i < |p| ==> p[i] != "" && p[i] != "." && '/' !in p[i]
  }

  predicate IsTilde(text: string) {
    text == TILDE || TILDE + "/" <= text || TILDE + "\\" <= text
  }

  function TrimSeparators(s: string): string {
    if s != [] && (s[0] == '/' || s[0] == '\\') then TrimSeparators(s[1..]) else s
  }

  ghost predicate FaithfulPaths(t: PathTexts) {
    && Proper(t.home)
    && (forall s {:trigger t.split(s)} :: Proper(t.split(s)))
    && (forall s {:trigger t.parse(s)} :: t.parse(s).Some? ==> Proper(t.parse(s).value))
    && (forall p {:trigger t.render(p)} :: Proper(p) ==> t.parse(t.render(p)) == Some(p) && !IsTilde(t.render(p)))
  }

  /** The path a text stands for, with `~` read as the home directory. */
  function Expand(t: PathTexts, text: string): Option<Path> {
    if IsTilde(text) then Some(t.home + [".mempalace"] + t.split(TrimSeparators(text[|TILDE|..])))
    else t.parse(text)
  }

  predicate Inside(t: PathTexts, root: Path, text: string) {
    Expand(t, text).Some? && root <= Expand(t, text).value
  }

  /** `remap_path`. */
  function Remap(t: PathTexts, r: Roots, text: string): string {
    if Inside(t, r.legacy, text) then t.render(r.target + Expand(t, text).value[|r.legacy|..]) else text
  }

  lemma ExpandIsProper(t: PathTexts, text: string)
    requires FaithfulPaths(t) && Expand(t, text).Some?
    ensures Proper(Expand(t, text).value)
  {
    if IsTilde(text) {
      var rest := t.split(TrimSeparators(text[|TILDE|..]));
      assert Proper(rest);
    }
  }

  /** A remapped path keeps its place relative to the home. */
  lemma RemapLands(t: PathTexts, r: Roots, text: string)
    requires FaithfulPaths(t) && Proper(r.target) && Inside(t, r.legacy, text)
    ensures Expand(t, Remap(t, r, text)) == Some(r.target + Expand(t, text).value[|r.legacy|..])
  {
    ExpandIsProper(t, text);
    assert Proper(r.target + Expand(t, text).value[|r.legacy|..]);
  }

  lemma ApartExtends(p: Path, q: Path, rest: Path)
    requires Apart(p, q)
    ensures !(p <= q + rest)
  {
  }

  /**
   After remapping, no path leads into the legacy home; a text changes exactly when it did
   lead there; and remapping again changes nothing.
   */
  lemma RemapLeavesTheOldHome(t: PathTexts, r: Roots, text: string)
    requires FaithfulPaths(t) && Proper(r.target) && Apart(r.legacy, r.target)
    ensures !Inside(t, r.legacy, Remap(t, r, text))
    ensures Remap(t, r, text) == text <==> !Inside(t, r.legacy, text)
    ensures Remap(t, r, Remap(t, r, text)) == Remap(t, r, text)
  {
    if Inside(t, r.legacy, text) {
      hide Expand, FaithfulPaths, Apart;
      RemapLands(t, r, text);
      ApartExtends(r.legacy, r.target, Expand(t, text).value[|r.legacy|..]);
    }
  }

  /**
   A text that starts with `~/.mempalace` is a path below the user's own legacy home, with
   either separator and however many of them; when that home is the one that moves, the text
   is moved with it.
   */
  lemma TildeMeansHome(t: PathTexts, r: Roots, separators: string, rest: string)
    requires r.legacy == t.home + [".mempalace"]
    requires forall i :: 0 <= i < |separators| ==> separators[i] == '/' || separators[i] == '\\'
    requires rest != [] ==> separators != [] && rest[0] != '/' && rest[0] != '\\'
    ensures Expand(t, "~/.mempalace" + (separators + rest)) == Some(t.home + [".mempalace"] + t.split(rest))
    ensures Remap(t, r, "~/.mempalace" + (separators + rest)) == t.render(r.target + t.split(rest))
  {
    var text := "~/.mempalace" + (separators + rest);
    TildeStarts(separators, rest);
    TrimAll(separators, rest);
    assert text[|TILDE|..] == separators + rest;
    hide TrimSeparators, IsTilde;
    assert (t.home + [".mempalace"] + t.split(rest))[|r.legacy|..] == t.split(rest);
  }

  lemma TildeStarts(separators: string, rest: string)
    requires forall i :: 0 <= i < |separators| ==> separators[i] == '/' || separators[i] == '\\'
    requires rest != [] ==> separators != []
    ensures IsTilde("~/.mempalace" + (separators + rest))
  {
    var text := "~/.mempalace" + (separators + rest);
    if separators != [] {
      assert text == "~/.mempalace" + [separators[0]] + (separators[1..] + rest);
    } else {
      assert text == TILDE;
    }
  }

  lemma {:induction false} TrimAll(separators: string, rest: string)
    requires forall i :: 0 <= i < |separators| ==> separators[i] == '/' || separators[i] == '\\'
    requires rest != [] ==> rest[0] != '/' && rest[0] != '\\'
    ensures TrimSeparators(separators + rest) == rest
  {
    if separators == [] {
      assert separators + rest == rest;
    } else {
      assert (separators + rest)[1..] == separators[1..] + rest;
      TrimAll(separators[1..], rest);
    }
  }

  /** Every other text is the path it says. */
  lemma NoTilde(t: PathTexts, r: Roots, text: string)
    requires text != "~/.mempalace" && !("~/.mempalace/" <= text) && !("~/.mempalace\\" <= text)
    ensures Expand(t, text) == t.parse(text)
    ensures t.parse(text).None? || !(r.legacy <= t.parse(text).value) ==> Remap(t, r, text) == text
  {
  }
}
