/** The peeker (src/peeker.rs): walk the template tree without writing anything and
    collect the names of the variables the templates use, sorted and without repeats. */
module Peeker {
  import opened Wrappers
  import opened Paths
  import opened Error
  import opened Text
  import opened Blueprint
  import opened Configuration
  import Builder
  import Walker

  /** The concatenation of `vss`, in order. */
  function Flatten(vss: seq<seq<string>>): (r: seq<string>)
    ensures forall y :: y in r <==> exists i :: 0 <= i < |vss| && y in vss[i]
  {
    if |vss| == 0 then []
    else
      var init := vss[..|vss| - 1];
      var r := Flatten(init) + vss[|vss| - 1];
      assert forall i :: 0 <= i < |init| ==> init[i] == vss[i];
      r
  }

  /** `file`: the variables a template lists, in the engine's order; nothing for a file
      that is not a template. Read and parse failures are located at the file. */
  function File(cfg: Config, read: Path -> Result<string, IoError>, engine: Engine, rel: Path)
    : (r: Result<seq<string>, LocatedError>)
    ensures !Builder.IsTemplate(JoinPath(cfg.templateDir, rel)) ==> r == Ok([])
    ensures r.Err? ==> r.error.location == JoinPath(cfg.templateDir, rel)
    ensures var src := JoinPath(cfg.templateDir, rel);
            Builder.IsTemplate(src) && read(src).Err? ==> r == Err(LocatedError(src, Io(read(src).error)))
    ensures var src := JoinPath(cfg.templateDir, rel);
            Builder.IsTemplate(src) && read(src).Ok? ==>
              && (r.Ok? <==> engine.parse(read(src).value).Ok?)
              && (r.Ok? ==> r.value == engine.parse(read(src).value).value.variables)
              && (r.Err? ==> r == Err(LocatedError(src, InnerError.Template(engine.parse(read(src).value).error))))
  {
    var src := JoinPath(cfg.templateDir, rel);
    if !Builder.IsTemplate(src) then Ok([])
    else
      var text :- LocateIo(read(src), src);
      var template :- WithLocation(Builder.MapTemplateError(engine.parse(text)), src);
      Ok(template.variables)
  }

  /** The file action as the walk uses it. */
  function Action(cfg: Config, read: Path -> Result<string, IoError>, engine: Engine)
    : Path -> Result<seq<string>, LocatedError>
  {
    p => File(cfg, read, engine, p)
  }

  /** What a level does with its children's lists: concatenate, sort, drop repeats. */
  function Combine(vss: seq<seq<string>>): (r: seq<string>)
    ensures StrictlySorted(r)
    ensures forall y :: y in r <==> exists i :: 0 <= i < |vss| && y in vss[i]
  {
    SortDedup(Flatten(vss))
  }

  /** `dir`: the walk of the template tree. It creates nothing, so the outcome of a
      directory creation plays no part. */
  function Dir(cfg: Config, read: Path -> Result<string, IoError>, engine: Engine, rel: Path, node: Walker.Node)
    : (r: Result<seq<string>, Errors>)
    ensures r.Err? ==> !IsEmpty(r.error)
    ensures r.Ok? ==> StrictlySorted(r.value)
    ensures r.Ok? <==> Walker.Healthy(cfg.templateDir, None, Action(cfg, read, engine), rel, node)
    ensures r.Ok? ==> forall y :: y in r.value <==> y in Variables(Action(cfg, read, engine), rel, node)
  {
    Walker.DirOkIff(cfg.templateDir, None, Action(cfg, read, engine), Combine, rel, node);
    DirVariables(cfg.templateDir, Action(cfg, read, engine), rel, node);
    Walker.Dir(cfg.templateDir, None, Action(cfg, read, engine), Combine, rel, node)
  }

  /** `print_variables`: the lines printed, one variable per line, when the walk
      succeeds. */
  function PrintVariables(cfg: Config, read: Path -> Result<string, IoError>, engine: Engine, root: Walker.Node)
    : (r: Result<seq<string>, Errors>)
    ensures r.Ok? ==> StrictlySorted(r.value)
    ensures r.Ok? ==> forall y :: y in r.value <==> y in Variables(Action(cfg, read, engine), Empty, root)
    ensures r.Err? ==> !IsEmpty(r.error)
  {
    Dir(cfg, read, engine, Empty, root)
  }

  // ---------------------------------------------------------------------------
  // The reference: every variable named by a template anywhere below a directory

  /** The variables the templates below `node` list. */
  ghost function Variables(action: Path -> Result<seq<string>, LocatedError>, rel: Path, node: Walker.Node)
    : set<string>
    decreases node, 1
  {
    if node.listing.Ok? then EntryVariables(action, rel, node, |node.listing.value.entries|) else {}
  }

  /** The variables below the first `n` entries of `node`. */
  ghost function EntryVariables(action: Path -> Result<seq<string>, LocatedError>, rel: Path,
                                node: Walker.Node, n: nat) : set<string>
    requires node.listing.Ok? && n <= |node.listing.value.entries|
    decreases node, 0, n
  {
    if n == 0 then {}
    else
      var e := node.listing.value.entries[n - 1];
      var p := Walker.EntryPath(rel, e);
      EntryVariables(action, rel, node, n - 1)
      + (if Walker.IsFile(e) && action(p).Ok? then (set y | y in action(p).value)
         else if Walker.IsDir(e) then Variables(action, p, e.meta.value.node)
         else {})
  }

  /** Adding one more result to a list of results adds its value's names, if it has one. */
  lemma OkFlattenSnoc<E>(rs: seq<Result<seq<string>, E>>, x: Result<seq<string>, E>)
    ensures forall y :: y in Flatten(Walker.OkValues(rs + [x])) <==>
                          y in Flatten(Walker.OkValues(rs)) || (x.Ok? && y in x.value)
  {
    assert (rs + [x])[..|rs|] == rs;
    var vs := Walker.OkValues(rs);
    if x.Ok? {
      assert Walker.OkValues(rs + [x]) == vs + [x.value];
      assert (vs + [x.value])[..|vs|] == vs;
    } else {
      assert Walker.OkValues(rs + [x]) == vs;
    }
  }

  /** A successful walk collects exactly the reference names. */
  lemma {:induction false} DirVariables(src: Path, action: Path -> Result<seq<string>, LocatedError>,
                                        rel: Path, node: Walker.Node)
    ensures var r := Walker.Dir(src, None, action, Combine, rel, node);
            r.Ok? ==> forall y :: y in r.value <==> y in Variables(action, rel, node)
    decreases node, 1
  {
    var r := Walker.Dir(src, None, action, Combine, rel, node);
    if r.Ok? {
      Walker.DirOkIff(src, None, action, Combine, rel, node);
      var es := node.listing.value.entries;
      var files := Walker.FileResults(action, rel, es);
      var dirs := Walker.DirResults(src, None, action, Combine, rel, node, |es|);
      assert es[..|es|] == es;
      LevelVariables(src, action, rel, node, |es|);
      forall y ensures y in r.value <==> y in Variables(action, rel, node) {
        assert y in r.value <==> y in Flatten(Walker.OkValues(files) + Walker.OkValues(dirs));
        FlattenAppend(Walker.OkValues(files), Walker.OkValues(dirs), y);
      }
    }
  }

  lemma FlattenAppend(a: seq<seq<string>>, b: seq<seq<string>>, y: string)
    ensures y in Flatten(a + b) <==> y in Flatten(a) || y in Flatten(b)
  {
    if y in Flatten(a + b) {
      var i :| 0 <= i < |a + b| && y in (a + b)[i];
      if i >= |a| {
        assert b[i - |a|] == (a + b)[i];
      }
    }
    if y in Flatten(b) {
      var i :| 0 <= i < |b| && y in b[i];
      assert (a + b)[|a| + i] == b[i];
    }
    if y in Flatten(a) {
      var i :| 0 <= i < |a| && y in a[i];
      assert (a + b)[i] == a[i];
    }
  }

  /** Over the first `n` entries of a healthy level, the file results and the
      subdirectory results together name exactly the reference names. */
  lemma {:induction false} LevelVariables(src: Path, action: Path -> Result<seq<string>, LocatedError>,
                                          rel: Path, node: Walker.Node, n: nat)
    requires node.listing.Ok? && n <= |node.listing.value.entries|
    requires Walker.Healthy(src, None, action, rel, node)
    ensures forall y ::
              (y in Flatten(Walker.OkValues(Walker.FileResults(action, rel, node.listing.value.entries[..n])))
               || y in Flatten(Walker.OkValues(Walker.DirResults(src, None, action, Combine, rel, node, n))))
              <==> y in EntryVariables(action, rel, node, n)
    decreases node, 0, n
  {
    var es := node.listing.value.entries;
    if n > 0 {
      LevelVariables(src, action, rel, node, n - 1);
      var e := es[n - 1];
      var p := Walker.EntryPath(rel, e);
      assert es[..n][..n - 1] == es[..n - 1];
      assert es[..n][n - 1] == e;
      var pf := Walker.FileResults(action, rel, es[..n - 1]);
      var pd := Walker.DirResults(src, None, action, Combine, rel, node, n - 1);
      if Walker.IsFile(e) {
        assert Walker.FileResults(action, rel, es[..n]) == pf + [action(p)];
        OkFlattenSnoc(pf, action(p));
        assert Walker.DirResults(src, None, action, Combine, rel, node, n) == pd;
      } else if Walker.IsDir(e) {
        assert Walker.FileResults(action, rel, es[..n]) == pf;
        var sub := Walker.Dir(src, None, action, Combine, p, e.meta.value.node);
        assert Walker.DirResults(src, None, action, Combine, rel, node, n) == pd + [sub];
        OkFlattenSnoc(pd, sub);
        Walker.DirOkIff(src, None, action, Combine, p, e.meta.value.node);
        DirVariables(src, action, p, e.meta.value.node);
      } else {
        assert Walker.FileResults(action, rel, es[..n]) == pf;
        assert Walker.DirResults(src, None, action, Combine, rel, node, n) == pd;
      }
    }
  }
}
