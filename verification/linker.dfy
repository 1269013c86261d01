/** The linker (src/linker.rs): mirror the build tree's directories into the link tree
    and replace every file there with a symbolic link to its built counterpart. */
module Linker {
  import opened Wrappers
  import opened Paths
  import opened Error
  import opened Configuration
  import Walker

  /** The outcomes of the two file-system calls a file needs. */
  datatype LinkFs = LinkFs(
    remove: Path -> Result<(), IoError>,              // `remove_file` of the link path
    symlink: (Path, Path) -> Result<(), IoError>)     // `symlink(target, link)`

  /** How many of `xs` are exactly ".". */
  function CountDots(xs: seq<string>): nat {
    if |xs| == 0 then 0 else CountDots(xs[..|xs| - 1]) + (if xs[|xs| - 1] == "." then 1 else 0)
  }

  /** `Iterator::skip(1)`. */
  function SkipFirst(xs: seq<string>): (r: seq<string>)
    ensures |xs| > 0 ==> r == xs[1..]
    ensures |xs| == 0 ==> r == []
  {
    if |xs| == 0 then [] else xs[1..]
  }

  /** `k` copies of `s`. */
  function Repeat(s: string, k: nat): (r: seq<string>)
    ensures |r| == k && forall i :: 0 <= i < k ==> r[i] == s
  {
    if k == 0 then [] else Repeat(s, k - 1) + [s]
  }

  /** What the link points at: an absolute build path as it is; a relative one behind one
      ".." per "." among the link path's components after the first. */
  function SymlinkTarget(link: Path, build: Path): Path {
    if IsAbsolute(build) then build
    else JoinPath(Path(false, Repeat("..", CountDots(SkipFirst(Iter(link))))), build)
  }

  lemma {:induction false} CountDotsNone(xs: seq<string>)
    requires forall i :: 0 <= i < |xs| ==> xs[i] != "."
    ensures CountDots(xs) == 0
    decreases |xs|
  {
    if |xs| > 0 {
      CountDotsNone(xs[..|xs| - 1]);
    }
  }

  /** The component parser never yields "." after the first component, so no ".." is ever
      put in front of the build path. */
  lemma NoDotAfterFirstComponent(link: Path)
    ensures CountDots(SkipFirst(Iter(link))) == 0
  {
    var it := Iter(link);
    var cs := Components(link);
    if |it| > 0 {
      forall i | 0 <= i < |it| - 1 ensures it[1..][i] != "." {
        assert it[1..][i] == ComponentText(cs[i + 1]);
      }
      CountDotsNone(it[1..]);
    }
  }

  /** Whatever the link path, the link points at the build path itself. */
  lemma SymlinkTargetIsBuildPath(link: Path, build: Path)
    ensures SymlinkTarget(link, build) == build
  {
    NoDotAfterFirstComponent(link);
    assert Repeat("..", 0) + build.segs == build.segs;
  }

  /** `file`: remove whatever is at the link path (nothing there is fine), then link it to
      the build path. Every failure is located at the link path. */
  function File(cfg: Config, fs: LinkFs, rel: Path): (r: Result<(), LocatedError>)
    ensures r.Err? ==> r.error.location == JoinPath(cfg.linkDir, rel)
    ensures var removed := fs.remove(JoinPath(cfg.linkDir, rel));
            removed.Err? && removed.error != NotFound ==>
              r == Err(LocatedError(JoinPath(cfg.linkDir, rel), Io(removed.error)))
    ensures var removed := fs.remove(JoinPath(cfg.linkDir, rel));
            var linked := fs.symlink(JoinPath(cfg.buildDir, rel), JoinPath(cfg.linkDir, rel));
            (removed.Ok? || removed.error == NotFound) ==>
              && (r.Ok? <==> linked.Ok?)
              && (linked.Err? ==> r == Err(LocatedError(JoinPath(cfg.linkDir, rel), Io(linked.error))))
  {
    var build := JoinPath(cfg.buildDir, rel);
    var link := JoinPath(cfg.linkDir, rel);
    var removed := fs.remove(link);
    if removed.Err? && removed.error != NotFound then Err(Locate(Io(removed.error), link))
    else
      SymlinkTargetIsBuildPath(link, build);
      LocateIo(fs.symlink(SymlinkTarget(link, build), link), link)
  }

  /** When the old file cannot be removed, the link is never attempted: the outcome does
      not depend on what `symlink` would have done. */
  lemma RemovalFailureSkipsSymlink(cfg: Config, fs: LinkFs, other: (Path, Path) -> Result<(), IoError>, rel: Path)
    requires fs.remove(JoinPath(cfg.linkDir, rel)).Err?
    requires fs.remove(JoinPath(cfg.linkDir, rel)).error != NotFound
    ensures File(cfg, fs, rel) == File(cfg, fs.(symlink := other), rel)
    ensures File(cfg, fs, rel).Err?
  {
  }

  /** `dir`: the walk of the build tree that mirrors it into the link tree. */
  function Dir(cfg: Config, fs: LinkFs, rel: Path, node: Walker.Node): (r: Result<(), Errors>)
    ensures r.Err? ==> !IsEmpty(r.error)
    ensures !Walker.MkdirOk(node.mkdir) ==>
              r == Err(Single(LocatedError(JoinPath(cfg.linkDir, rel), Io(node.mkdir.error))))
    ensures r.Ok? <==> Walker.Healthy(cfg.buildDir, Some(cfg.linkDir), p => File(cfg, fs, p), rel, node)
  {
    Walker.DirOkIff(cfg.buildDir, Some(cfg.linkDir), p => File(cfg, fs, p), _ => (), rel, node);
    Walker.Dir(cfg.buildDir, Some(cfg.linkDir), p => File(cfg, fs, p), _ => (), rel, node)
  }

  /** `link_tree`: the walk from the top of the build tree. */
  function LinkTree(cfg: Config, fs: LinkFs, root: Walker.Node): (r: Result<(), Errors>)
    ensures r.Err? ==> !IsEmpty(r.error)
    ensures r.Ok? <==> Walker.Healthy(cfg.buildDir, Some(cfg.linkDir), p => File(cfg, fs, p), Empty, root)
  {
    Dir(cfg, fs, Empty, root)
  }
}
