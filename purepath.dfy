/** The parts of `pathlib.PurePath` that the view model uses. A path is the
    tuple of its parts (`PurePath.parts`), outermost first. */
module PurePath {
  import opened PyStr

  type Path = seq<string>

  /** `PurePath.name`: the final part, or "" for the empty path. */
  function Basename(p: Path): string {
    if p == [] then "" else p[|p| - 1]
  }

  /** A final part has no suffix when it ends with a dot or has no dot after
      its first character. */
  predicate NoSuffix(name: string) {
    || (name != [] && name[|name| - 1] == '.')
    || forall k :: 0 < k < |name| - 1 ==> name[k] != '.'
  }

  /** Where the suffix of a final part starts, if it has one: at its last dot,
      provided that dot is neither the first nor the last character. */
  function SuffixStart(name: string): (i: int)
    ensures i == -1 || (0 < i < |name| - 1 && name[i] == '.')
    ensures i != -1 ==> forall j :: i < j < |name| ==> name[j] != '.'
  {
    var i := RFind(name, '.');
    if 0 < i < |name| - 1 then i else -1
  }

  /** `PurePath(name).suffix`: empty or the text from the last dot, which
      holds at least one further character and no further dot; `SuffixEmpty`
      says when it is empty. */
  function Suffix(name: string): (r: string)
    ensures r == [] || (|r| >= 2 && r[0] == '.' && forall j :: 1 <= j < |r| ==> r[j] != '.')
    ensures EndsWith(name, r)
  {
    var i := SuffixStart(name);
    if i == -1 then "" else name[i..]
  }

  /** A final part has an empty suffix exactly when it has no suffix. */
  lemma SuffixEmpty(name: string)
    ensures SuffixStart(name) == -1 <==> NoSuffix(name)
    ensures Suffix(name) == [] <==> NoSuffix(name)
  {
  }

  /** `PurePath(name).stem`: the final part without its suffix; never empty
      when there is a suffix. */
  function Stem(name: string): (r: string)
    ensures r + Suffix(name) == name
    ensures Suffix(name) != [] ==> r != []
  {
    var i := SuffixStart(name);
    if i == -1 then name else name[..i]
  }

  /** `path.relative_to(origin)` for a path inside `origin`; the joined path
      `origin.joinpath(rel)` is `origin + rel`. */
  function RelativeTo(path: Path, origin: Path): (rel: Path)
    requires origin <= path
    ensures origin + rel == path
  {
    path[|origin|..]
  }

  /** The final part of a joined path is the final part of its non-empty tail. */
  lemma BasenameJoin(origin: Path, rel: Path)
    requires rel != []
    ensures Basename(origin + rel) == Basename(rel)
  {
  }
}
