/** The part of Python's `pathlib` the converter uses: joining a name onto a
    directory, `name`, `stem`, `suffix`, `with_suffix`, rendering with `str()`,
    and taking the final component of an archive entry name. */
module Paths {
  import opened Common
  import opened Text

  /** `os.name`: `Nt` when it is `"nt"`, `Posix` for every other value. It
      selects the path flavour and the tool conventions. */
  datatype Platform = Nt | Posix

  /** A path: its anchor (`""` for a relative path, `"/"` or a drive such as
      `"C:\\"`) and its components in order. */
  datatype Path = Path(anchor: string, parts: seq<string>)

  /** The separator `str()` puts between components. */
  function Separator(pl: Platform): char {
    if pl.Nt? then '\\' else '/'
  }

  /** `path.name`: the final component, or `""` for a bare anchor. */
  function Name(p: Path): string {
    if |p.parts| == 0 then "" else p.parts[|p.parts| - 1]
  }

  /** `path.parent` (a bare anchor is its own parent). */
  function Parent(p: Path): Path {
    if |p.parts| == 0 then p else Path(p.anchor, p.parts[..|p.parts| - 1])
  }

  /** `dir / name` where `name` is one component; joining `""` leaves `dir`. */
  function Child(dir: Path, name: string): (r: Path)
    ensures name != "" ==> Name(r) == name && Parent(r) == dir
    ensures name == "" ==> r == dir
  {
    if name == "" then dir else Path(dir.anchor, dir.parts + [name])
  }

  /** The components joined by `c`. */
  function Join(parts: seq<string>, c: char): string {
    if |parts| == 0 then ""
    else if |parts| == 1 then parts[0]
    else Join(parts[..|parts| - 1], c) + [c] + parts[|parts| - 1]
  }

  /** `str(path)`: the anchor followed by the components, or `"."` for the
      empty relative path. */
  function Str(p: Path, pl: Platform): string {
    if p.anchor == "" && |p.parts| == 0 then "." else p.anchor + Join(p.parts, Separator(pl))
  }

  /** The rendering of `dir / name` ends with `name`. */
  lemma {:induction false} StrChildEndsWith(dir: Path, name: string, pl: Platform)
    requires name != ""
    ensures EndsWith(Str(Child(dir, name), pl), name)
  {
    var parts := dir.parts + [name];
    assert parts[..|parts| - 1] == dir.parts;
    var j := Join(parts, Separator(pl));
    assert EndsWith(j, name);
    var s := Str(Child(dir, name), pl);
    assert s == dir.anchor + j;
    assert s[|s| - |name|..] == j[|j| - |name|..];
  }

  /** `PurePath.suffix` (Python 3.12): the text from the last `.` of the name,
      provided that dot is neither its first nor its last character; `""`
      otherwise. So `"a.b.apk"` has suffix `".apk"`, while `".apk"` and `"a."`
      have none. */
  function Suffix(name: string): (r: string)
    ensures r != "" ==> |r| >= 2 && |r| < |name| && r[0] == '.' && EndsWith(name, r)
    ensures r != "" ==> forall k :: 1 <= k < |r| ==> r[k] != '.'
    ensures r == "" ==> forall i :: 0 < i < |name| - 1 && name[i] == '.' ==> '.' in name[i + 1..]
  {
    match LastIndexIn(name, {'.'})
    case Some(i) =>
      if 0 < i < |name| - 1 then
        var r := name[i..];
        assert forall k :: 1 <= k < |r| ==> r[k] == name[i + k];
        r
      else
        assert forall j :: 0 < j < |name| - 1 && name[j] == '.' ==> name[i] == name[j + 1..][i - j - 1];
        ""
    case None => ""
  }

  /** `PurePath.stem`: the name without its final suffix. */
  function Stem(name: string): (r: string)
    ensures r + Suffix(name) == name
    ensures name != "" ==> r != ""
  {
    var s := Suffix(name);
    name[..|name| - |s|]
  }

  /** Appending an extension (a dot followed by at least one character, no
      further dots) to a non-empty name gives a name whose suffix is exactly
      that extension and whose stem is the original name. */
  lemma SuffixOfAppendedExtension(base: string, ext: string)
    requires base != ""
    requires |ext| >= 2 && ext[0] == '.'
    requires forall k :: 1 <= k < |ext| ==> ext[k] != '.'
    ensures Suffix(base + ext) == ext
    ensures Stem(base + ext) == base
  {
    var n := base + ext;
    var i := |base|;
    assert n[i] in {'.'};
    assert forall k :: i < k < |n| ==> n[k] == ext[k - i];
    var r := LastIndexIn(n, {'.'});
    assert r.Some?;
    assert r.value == i;
    assert n[i..] == ext;
  }

  /** `path.with_suffix(suffix)`: the same directory, with the name's final
      suffix replaced by (or extended with) `suffix`. Python raises ValueError
      for a path with an empty name, so one is required here. */
  function WithSuffix(p: Path, suffix: string): (r: Path)
    requires Name(p) != ""
    ensures Parent(r) == Parent(p)
    ensures Name(r) == Stem(Name(p)) + suffix
  {
    Path(p.anchor, p.parts[..|p.parts| - 1] + [Stem(Name(p)) + suffix])
  }

  /** The characters that separate directories in an archive entry name as
      pathlib parses it: `/`, and on Windows also the backslash. */
  function EntrySeparators(pl: Platform): set<char> {
    if pl.Nt? then {'/', '\\'} else {'/'}
  }

  /** `Path(filename).name` for an archive entry name that does not end in a
      separator or a dot (true of every `.apk` entry): the longest final piece
      of `filename` that holds no separator. */
  function BaseName(pl: Platform, filename: string): (r: string)
    requires |filename| > 0
    requires filename[|filename| - 1] !in EntrySeparators(pl) && filename[|filename| - 1] != '.'
    ensures r != "" && EndsWith(filename, r)
    ensures forall k :: 0 <= k < |r| ==> r[k] !in EntrySeparators(pl)
    ensures |r| < |filename| ==> filename[|filename| - |r| - 1] in EntrySeparators(pl)
  {
    match LastIndexIn(filename, EntrySeparators(pl))
    case None => filename
    case Some(i) =>
      var r := filename[i + 1..];
      assert forall k :: 0 <= k < |r| ==> r[k] == filename[i + 1 + k];
      r
  }
}
