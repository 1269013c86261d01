/** Unix paths as Rust's `std::path` sees them.

    A `Path` keeps the raw pieces between separators (so `a//./b` is `["a", "", ".", "b"]`)
    and whether it starts at the root. `Components` is Rust's component parser: empty
    pieces and `.` are dropped, except that a leading `.` of a relative path is kept as
    `CurDir`. Rust compares paths component by component, so two raw paths with the same
    components denote the same path. */
module Paths {
  import opened Wrappers

  datatype Path = Path(root: bool, segs: seq<string>)

  datatype Component = RootDir | CurDir | ParentDir | Normal(name: string)

  /** `PathBuf::new()`. */
  const Empty: Path := Path(false, [])

  /** A piece the component parser drops when it is not leading. */
  predicate Skipped(s: string) {
    s == "" || s == "."
  }

  /** A piece that is an ordinary file or directory name. */
  predicate IsName(s: string) {
    !Skipped(s) && s != ".."
  }

  function ComponentOf(s: string): Component {
    if s == ".." then ParentDir else Normal(s)
  }

  /** The components of pieces that are not in leading position. */
  function Normals(segs: seq<string>): (r: seq<Component>)
    ensures |r| <= |segs|
    ensures forall i :: 0 <= i < |r| ==> r[i] == ParentDir || (r[i].Normal? && IsName(r[i].name))
  {
    if |segs| == 0 then []
    else
      var last := segs[|segs| - 1];
      Normals(segs[..|segs| - 1]) + (if Skipped(last) then [] else [ComponentOf(last)])
  }

  /** `Path::components`: `RootDir` and `CurDir` can only ever come first. */
  function Components(p: Path): (r: seq<Component>)
    ensures forall i :: 0 < i < |r| ==> r[i] == ParentDir || (r[i].Normal? && IsName(r[i].name))
    ensures p.root <==> |r| > 0 && r[0] == RootDir
  {
    if p.root then [RootDir] + Normals(p.segs)
    else if |p.segs| > 0 && p.segs[0] == "." then [CurDir] + Normals(p.segs[1..])
    else Normals(p.segs)
  }

  function ComponentText(c: Component): string {
    match c
    case RootDir => "/"
    case CurDir => "."
    case ParentDir => ".."
    case Normal(n) => n
  }

  /** `Path::iter`: the components as strings. */
  function Iter(p: Path): (r: seq<string>)
    ensures |r| == |Components(p)|
  {
    var cs := Components(p);
    seq(|cs|, i requires 0 <= i < |cs| => ComponentText(cs[i]))
  }

  /** `Path::is_absolute` on Unix: the path has a root. */
  predicate IsAbsolute(p: Path) {
    p.root
  }

  /** `PathBuf::join`/`push`: an absolute argument replaces the base, a relative one is
      appended below it. */
  function JoinPath(base: Path, p: Path): (r: Path)
    ensures p.root ==> r == p
    ensures !p.root ==> r.root == base.root && |r.segs| == |base.segs| + |p.segs|
    ensures !p.root ==> r.segs[..|base.segs|] == base.segs && r.segs[|base.segs|..] == p.segs
  {
    if p.root then p else Path(base.root, base.segs + p.segs)
  }

  /** The relative path made of one name. */
  function Name(n: string): Path {
    Path(false, [n])
  }

  /** `Path::file_name`: the last component when it is a name. */
  function FileName(p: Path): Option<string> {
    var cs := Components(p);
    if |cs| > 0 && cs[|cs| - 1].Normal? then Some(cs[|cs| - 1].name) else None
  }

  /** Index of the last '.' in `s`. */
  function LastDot(s: string): (r: Option<nat>)
    ensures r.Some? ==> r.value < |s| && s[r.value] == '.'
    ensures r.Some? ==> forall j :: r.value < j < |s| ==> s[j] != '.'
    ensures r.None? ==> forall j :: 0 <= j < |s| ==> s[j] != '.'
  {
    if |s| == 0 then None
    else if s[|s| - 1] == '.' then Some(|s| - 1)
    else LastDot(s[..|s| - 1])
  }

  /** Rust's split of a file name at its last dot into (stem, extension): no extension for
      `..`, for a name without a dot, or for a name whose only dot leads it (`.bashrc`). */
  function SplitName(name: string): (string, Option<string>) {
    if name == ".." then (name, None)
    else
      match LastDot(name)
      case None => (name, None)
      case Some(i) => if i == 0 then (name, None) else (name[..i], Some(name[i + 1..]))
  }

  /** `Path::file_stem` of a file name. */
  function Stem(name: string): string {
    SplitName(name).0
  }

  /** `Path::extension` of a file name. */
  function Extension(name: string): Option<string> {
    SplitName(name).1
  }

  /** `Path::extension` of a path. */
  function PathExtension(p: Path): Option<string> {
    match FileName(p)
    case None => None
    case Some(n) => Extension(n)
  }

  /** Splitting a name and joining the halves back with a dot gives the name again; a
      name without an extension is its own stem. */
  lemma ExtensionSplits(name: string)
    ensures Extension(name).Some? ==>
              && Stem(name) + "." + Extension(name).value == name
              && Stem(name) != ""
              && forall j :: 0 <= j < |Extension(name).value| ==> Extension(name).value[j] != '.'
    ensures Extension(name).None? ==> Stem(name) == name
  {
    if name != ".." && LastDot(name).Some? && LastDot(name).value != 0 {
      var i := LastDot(name).value;
      assert name[..i] + "." + name[i + 1..] == name by {
        assert name == name[..i] + [name[i]] + name[i + 1..];
      }
      var ext := name[i + 1..];
      forall k | 0 <= k < |ext| ensures ext[k] != '.' {
        assert ext[k] == name[i + 1 + k];
      }
    }
  }

  /** Conversely, a non-empty stem and a dot-free extension are recovered from the name
      they form, except for the one name `..` that Rust refuses to split. */
  lemma SplitComposed(stem: string, ext: string)
    requires stem != ""
    requires forall j :: 0 <= j < |ext| ==> ext[j] != '.'
    requires stem + "." + ext != ".."
    ensures Stem(stem + "." + ext) == stem
    ensures Extension(stem + "." + ext) == Some(ext)
  {
    var name := stem + "." + ext;
    var d := LastDot(name);
    assert name[|stem|] == '.';
    if d.None? {
      assert false;
    }
    var i := d.value;
    assert i == |stem|;
    assert name[..i] == stem;
    assert name[i + 1..] == ext;
  }

  /** Index of the last piece that is not `""` or `.`. */
  function LastNamed(segs: seq<string>): (r: Option<nat>)
    ensures r.Some? ==> r.value < |segs| && !Skipped(segs[r.value])
    ensures r.Some? ==> forall j :: r.value < j < |segs| ==> Skipped(segs[j])
    ensures r.None? ==> forall j :: 0 <= j < |segs| ==> Skipped(segs[j])
  {
    if |segs| == 0 then None
    else if !Skipped(segs[|segs| - 1]) then Some(|segs| - 1)
    else LastNamed(segs[..|segs| - 1])
  }

  /** `PathBuf::set_extension("")`: cut the path right after the stem of its file name;
      a path without a file name is left alone. */
  function SetExtensionEmpty(p: Path): (r: Path)
    ensures r.root == p.root
    ensures FileName(p).None? ==> r == p
  {
    if FileName(p).None? then p
    else
      match LastNamed(p.segs)
      case None => p
      case Some(i) => Path(p.root, p.segs[..i] + [Stem(p.segs[i])])
  }

  lemma {:induction false} NormalsAppend(a: seq<string>, b: seq<string>)
    ensures Normals(a + b) == Normals(a) + Normals(b)
    decreases |b|
  {
    if |b| == 0 {
      assert a + b == a;
    } else {
      var b' := b[..|b| - 1];
      assert (a + b)[..|a + b| - 1] == a + b';
      NormalsAppend(a, b');
    }
  }

  lemma {:induction false} NormalsAllSkipped(segs: seq<string>)
    requires forall j :: 0 <= j < |segs| ==> Skipped(segs[j])
    ensures Normals(segs) == []
    decreases |segs|
  {
    if |segs| > 0 {
      NormalsAllSkipped(segs[..|segs| - 1]);
    }
  }

  /** The components of a piece list, split at its last named piece. */
  lemma {:induction false} NormalsAtLastNamed(segs: seq<string>, i: nat)
    requires i < |segs| && !Skipped(segs[i])
    requires forall j :: i < j < |segs| ==> Skipped(segs[j])
    ensures Normals(segs) == Normals(segs[..i]) + [ComponentOf(segs[i])]
    decreases |segs|
  {
    var init := segs[..|segs| - 1];
    if i == |segs| - 1 {
      assert init == segs[..i];
    } else {
      assert Skipped(segs[|segs| - 1]);
      assert Normals(segs) == Normals(init) + [];
      assert init[..i] == segs[..i] && init[i] == segs[i];
      NormalsAtLastNamed(init, i);
    }
  }

  /** Replacing the last named piece by another name replaces the last component. */
  lemma NormalsReplaceLast(t: seq<string>, i: nat, stem: string)
    requires i < |t| && !Skipped(t[i])
    requires forall j :: i < j < |t| ==> Skipped(t[j])
    requires IsName(stem)
    ensures Normals(t) == Normals(t[..i]) + [ComponentOf(t[i])]
    ensures Normals(t[..i] + [stem]) == Normals(t[..i]) + [Normal(stem)]
  {
    NormalsAtLastNamed(t, i);
    NormalsAppend(t[..i], [stem]);
    assert Normals([stem]) == [Normal(stem)] by {
      assert [stem][..0] == [];
    }
  }

  /** The file name of a path is its last named piece. */
  lemma FileNameIsLastNamed(p: Path, name: string)
    requires FileName(p) == Some(name)
    ensures LastNamed(p.segs).Some?
    ensures p.segs[LastNamed(p.segs).value] == name
  {
    var li := LastNamed(p.segs);
    if li.None? {
      NormalsAllSkipped(p.segs);
      if |p.segs| > 0 && p.segs[0] == "." {
        NormalsAllSkipped(p.segs[1..]);
      }
      assert false;
    }
    var i := li.value;
    if !p.root && |p.segs| > 0 && p.segs[0] == "." {
      NormalsAtLastNamed(p.segs[1..], i - 1);
    } else {
      NormalsAtLastNamed(p.segs, i);
    }
  }

  /** Stripping the extension replaces the file name by its stem and leaves every
      component before it unchanged, provided the stem is itself a name. */
  lemma SetExtensionEmptyRenames(p: Path, name: string)
    requires FileName(p) == Some(name)
    requires IsName(Stem(name))
    ensures |Components(p)| > 0
    ensures Components(SetExtensionEmpty(p))
            == Components(p)[..|Components(p)| - 1] + [Normal(Stem(name))]
    ensures FileName(SetExtensionEmpty(p)) == Some(Stem(name))
  {
    FileNameIsLastNamed(p, name);
    var i := LastNamed(p.segs).value;
    var r := Path(p.root, p.segs[..i] + [Stem(name)]);
    assert SetExtensionEmpty(p) == r;
    if !p.root && |p.segs| > 0 && p.segs[0] == "." {
      RenameAfterCurDir(p, i, Stem(name));
    } else {
      RenameWithoutCurDir(p, i, Stem(name));
    }
  }

  lemma RenameAfterCurDir(p: Path, i: nat, stem: string)
    requires !p.root && 0 < i < |p.segs| && p.segs[0] == "."
    requires !Skipped(p.segs[i]) && forall j :: i < j < |p.segs| ==> Skipped(p.segs[j])
    requires IsName(stem)
    ensures |Components(p)| > 0
    ensures Components(Path(p.root, p.segs[..i] + [stem]))
            == Components(p)[..|Components(p)| - 1] + [Normal(stem)]
  {
    var t := p.segs[1..];
    var r := Path(p.root, p.segs[..i] + [stem]);
    assert t[..i - 1] == p.segs[1..i];
    assert r.segs[0] == ".";
    assert r.segs[1..] == t[..i - 1] + [stem];
    NormalsReplaceLast(t, i - 1, stem);
    assert Components(p) == [CurDir] + Normals(t[..i - 1]) + [ComponentOf(t[i - 1])];
  }

  lemma RenameWithoutCurDir(p: Path, i: nat, stem: string)
    requires i < |p.segs| && (p.root || p.segs[0] != ".")
    requires !Skipped(p.segs[i]) && forall j :: i < j < |p.segs| ==> Skipped(p.segs[j])
    requires IsName(stem)
    ensures |Components(p)| > 0
    ensures Components(Path(p.root, p.segs[..i] + [stem]))
            == Components(p)[..|Components(p)| - 1] + [Normal(stem)]
  {
    var r := Path(p.root, p.segs[..i] + [stem]);
    NormalsReplaceLast(p.segs, i, stem);
    if !p.root && i > 0 {
      assert r.segs[0] == p.segs[0];
    }
  }

  /** Pushing a name adds exactly one component. */
  lemma ComponentsPushName(p: Path, n: string)
    requires IsName(n)
    ensures Components(JoinPath(p, Name(n))) == Components(p) + [Normal(n)]
    ensures FileName(JoinPath(p, Name(n))) == Some(n)
  {
    var q := JoinPath(p, Name(n));
    assert q.segs[..|q.segs| - 1] == p.segs;
    assert Normals(q.segs) == Normals(p.segs) + [Normal(n)];
    if !p.root && |p.segs| > 0 && p.segs[0] == "." {
      var t := q.segs[1..];
      assert t == p.segs[1..] + [n];
      assert t[..|t| - 1] == p.segs[1..];
      assert Normals(t) == Normals(p.segs[1..]) + [Normal(n)];
    } else if !p.root && |p.segs| > 0 {
      assert q.segs[0] == p.segs[0];
    }
  }

  /** Joining below a relative path is joining twice. */
  lemma JoinPathAssociative(a: Path, b: Path, c: Path)
    requires !b.root && !c.root
    ensures JoinPath(a, JoinPath(b, c)) == JoinPath(JoinPath(a, b), c)
  {
    assert a.segs + (b.segs + c.segs) == (a.segs + b.segs) + c.segs;
  }
}
