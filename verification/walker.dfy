/** The recursive directory walk shared by the builder, the linker and the peeker
    (`dir` in src/builder.rs, src/linker.rs and src/peeker.rs).

    The tree records, for every directory, what the file system answers: the outcome of
    creating the mirror directory at the destination, and the outcome of listing the
    source directory entry by entry. The per-file action is a parameter.

    The source runs the file tasks and the subdirectory tasks of a level concurrently,
    but `join_all` hands back their results in the order the tasks were created, so the
    walk is a sequential fold: file results in listing order, then subdirectory results
    in listing order. A failure of the listing loop returns before any task has been
    polled, and Rust futures do nothing until polled, so no work below that directory
    happens at all. */
module Walker {
  import opened Wrappers
  import opened Paths
  import opened Error

  /** A directory: the result of `create_dir` at its destination and of `read_dir` on it. */
  datatype Node = Node(mkdir: Result<(), IoError>, listing: Result<Listing, IoError>)

  /** The entries `next_entry` produced, then how the enumeration ended: `None` when it
      reported the end, `Some(e)` when it failed. */
  datatype Listing = Listing(entries: seq<Entry>, end: Option<IoError>)

  /** An entry with its file name and the outcome of fetching its metadata. */
  datatype Entry = Entry(name: string, meta: Result<Kind, IoError>)

  /** What the metadata says the entry is; symbolic links, sockets and the like are
      `OtherKind`. */
  datatype Kind = Directory(node: Node) | RegularFile | OtherKind

  /** `create_dir` succeeded, or failed only because the directory already exists. */
  predicate MkdirOk(r: Result<(), IoError>) {
    r.Ok? || r.error == AlreadyExists
  }

  function EntryPath(dir: Path, e: Entry): Path {
    JoinPath(dir, Name(e.name))
  }

  predicate IsFile(e: Entry) {
    e.meta == Ok(RegularFile)
  }

  predicate IsDir(e: Entry) {
    e.meta.Ok? && e.meta.value.Directory?
  }

  /** The first entry whose metadata could not be read, located at the entry's path. */
  function FirstMetaError(src: Path, es: seq<Entry>): (r: Option<LocatedError>)
    ensures r.None? <==> forall i :: 0 <= i < |es| ==> es[i].meta.Ok?
    ensures r.Some? ==> exists i :: 0 <= i < |es| && es[i].meta.Err?
                           && (forall j :: 0 <= j < i ==> es[j].meta.Ok?)
                           && r.value == LocatedError(EntryPath(src, es[i]), Io(es[i].meta.error))
  {
    if |es| == 0 then None
    else if es[0].meta.Err? then Some(Locate(Io(es[0].meta.error), EntryPath(src, es[0])))
    else
      var r := FirstMetaError(src, es[1..]);
      assert forall i :: 0 <= i < |es[1..]| ==> es[1..][i] == es[i + 1];
      r
  }

  /** The failure that ends the `read_dir` loop early, if any: opening the directory,
      reading an entry's metadata, or fetching the next entry. */
  function ListingError(src: Path, listing: Result<Listing, IoError>): (r: Option<LocatedError>)
    ensures r.None? <==> listing.Ok? && listing.value.end.None?
                         && forall i :: 0 <= i < |listing.value.entries| ==> listing.value.entries[i].meta.Ok?
    ensures listing.Err? ==> r == Some(LocatedError(src, Io(listing.error)))
    ensures listing.Ok? && FirstMetaError(src, listing.value.entries).Some? ==>
              r == FirstMetaError(src, listing.value.entries)
    ensures listing.Ok? && FirstMetaError(src, listing.value.entries).None? && listing.value.end.Some? ==>
              r == Some(LocatedError(src, Io(listing.value.end.value)))
  {
    match listing
    case Err(e) => Some(Locate(Io(e), src))
    case Ok(l) =>
      match FirstMetaError(src, l.entries)
      case Some(e) => Some(e)
      case None => if l.end.Some? then Some(Locate(Io(l.end.value), src)) else None
  }

  /** `filter_map(|r| r.err())`: the failures, in order. */
  function FileErrors<T>(rs: seq<Result<T, LocatedError>>): (errs: seq<LocatedError>)
    ensures |errs| == 0 <==> forall i :: 0 <= i < |rs| ==> rs[i].Ok?
    ensures |errs| <= |rs|
  {
    if |rs| == 0 then []
    else FileErrors(rs[..|rs| - 1]) + (if rs[|rs| - 1].Err? then [rs[|rs| - 1].error] else [])
  }

  /** An error is collected exactly when some result is that failure. */
  lemma {:induction false} FileErrorsMembers<T>(rs: seq<Result<T, LocatedError>>)
    ensures forall e :: e in FileErrors(rs) <==> exists i :: 0 <= i < |rs| && rs[i] == Err(e)
    decreases |rs|
  {
    if |rs| > 0 {
      var init := rs[..|rs| - 1];
      FileErrorsMembers(init);
      assert forall i :: 0 <= i < |init| ==> init[i] == rs[i];
      var tail := if rs[|rs| - 1].Err? then [rs[|rs| - 1].error] else [];
      assert FileErrors(rs) == FileErrors(init) + tail;
      forall e ensures e in FileErrors(rs) <==> exists i :: 0 <= i < |rs| && rs[i] == Err(e) {
        if e in FileErrors(rs) && e !in FileErrors(init) {
          assert rs[|rs| - 1] == Err(e);
        }
        if exists i :: 0 <= i < |rs| && rs[i] == Err(e) {
          var i :| 0 <= i < |rs| && rs[i] == Err(e);
          if i < |init| {
            assert init[i] == Err(e);
          } else {
            assert e in tail;
          }
        }
      }
    } else {
      assert FileErrors(rs) == [];
    }
  }

  /** The failures of consecutive runs of results are those of each run, one after the
      other. With the contract of `FileErrors` on a single result this fixes the failures'
      order as the results' order. */
  lemma {:induction false} FileErrorsAppend<T>(a: seq<Result<T, LocatedError>>, b: seq<Result<T, LocatedError>>)
    ensures FileErrors(a + b) == FileErrors(a) + FileErrors(b)
    decreases |b|
  {
    if |b| == 0 {
      assert a + b == a;
    } else {
      var init := b[..|b| - 1];
      FileErrorsAppend(a, init);
      assert (a + b)[..|a + b| - 1] == a + init;
      assert (a + b)[|a + b| - 1] == b[|b| - 1];
    }
  }

  /** The loop `for error in dirs ... { errors.join(error) }`. */
  function JoinAll<T>(acc: Errors, rs: seq<Result<T, Errors>>): (r: Errors)
    ensures IsEmpty(r) <==> IsEmpty(acc) && forall i :: 0 <= i < |rs| ==> (rs[i].Err? ==> IsEmpty(rs[i].error))
  {
    if |rs| == 0 then acc
    else
      var prefix := JoinAll(acc, rs[..|rs| - 1]);
      if rs[|rs| - 1].Err? then Error.Join(prefix, rs[|rs| - 1].error) else prefix
  }

  /** Every result is a success. */
  predicate AllOk<T, E>(rs: seq<Result<T, E>>) {
    forall j :: 0 <= j < |rs| ==> rs[j].Ok?
  }

  /** The success values, in order. */
  function OkValues<T, E>(rs: seq<Result<T, E>>): (vs: seq<T>)
    ensures |vs| <= |rs|
  {
    if |rs| == 0 then []
    else OkValues(rs[..|rs| - 1]) + (if rs[|rs| - 1].Ok? then [rs[|rs| - 1].value] else [])
  }

  /** The end of `dir`: succeed with the combined values when no file and no subdirectory
      failed, otherwise fail with the file errors followed by each subdirectory's errors. */
  function Merge<T>(combine: seq<T> -> T, files: seq<Result<T, LocatedError>>, dirs: seq<Result<T, Errors>>)
    : (r: Result<T, Errors>)
    requires forall i :: 0 <= i < |dirs| ==> (dirs[i].Err? ==> !IsEmpty(dirs[i].error))
    ensures r.Ok? <==> AllOk(files) && AllOk(dirs)
    ensures r.Ok? ==> r.value == combine(OkValues(files) + OkValues(dirs))
    ensures r.Err? ==> !IsEmpty(r.error)
  {
    var errors := JoinAll(FromVec(FileErrors(files)), dirs);
    if IsEmpty(errors) then Ok(combine(OkValues(files) + OkValues(dirs))) else Err(errors)
  }

  /** The file actions of the regular files among `es`, in listing order. */
  function FileResults<T>(action: Path -> Result<T, LocatedError>, rel: Path, es: seq<Entry>)
    : (rs: seq<Result<T, LocatedError>>)
    ensures |rs| <= |es|
  {
    if |es| == 0 then []
    else
      var last := es[|es| - 1];
      FileResults(action, rel, es[..|es| - 1]) + (if IsFile(last) then [action(EntryPath(rel, last))] else [])
  }

  /** The file results are the action's outcomes on the regular files listed: each such
      file's outcome is among them, and each of them is some such file's outcome. */
  lemma {:induction false} FileResultsMembers<T>(action: Path -> Result<T, LocatedError>, rel: Path, es: seq<Entry>)
    ensures forall i :: 0 <= i < |es| && IsFile(es[i]) ==> action(EntryPath(rel, es[i])) in FileResults(action, rel, es)
    ensures forall k :: 0 <= k < |FileResults(action, rel, es)| ==>
              exists i :: 0 <= i < |es| && IsFile(es[i]) && FileResults(action, rel, es)[k] == action(EntryPath(rel, es[i]))
    decreases |es|
  {
    if |es| > 0 {
      var init := es[..|es| - 1];
      var last := es[|es| - 1];
      FileResultsMembers(action, rel, init);
      var prs := FileResults(action, rel, init);
      var rs := FileResults(action, rel, es);
      var tail := if IsFile(last) then [action(EntryPath(rel, last))] else [];
      assert rs == prs + tail;
      assert forall i :: 0 <= i < |init| ==> init[i] == es[i];
      forall i | 0 <= i < |es| && IsFile(es[i])
        ensures action(EntryPath(rel, es[i])) in FileResults(action, rel, es)
      {
        if i < |init| {
          assert init[i] == es[i];
          assert action(EntryPath(rel, init[i])) in prs;
        } else {
          assert rs[|rs| - 1] == action(EntryPath(rel, es[i]));
        }
      }
      forall k | 0 <= k < |FileResults(action, rel, es)|
        ensures exists i :: 0 <= i < |es| && IsFile(es[i]) && FileResults(action, rel, es)[k] == action(EntryPath(rel, es[i]))
      {
        if k < |prs| {
          assert rs[k] == prs[k];
          var i :| 0 <= i < |init| && IsFile(init[i]) && prs[k] == action(EntryPath(rel, init[i]));
          assert es[i] == init[i];
        } else {
          assert rs[k] == action(EntryPath(rel, es[|es| - 1]));
        }
      }
    } else {
      assert FileResults(action, rel, es) == [];
    }
  }

  /** The file results of consecutive runs of entries are those of each run, one after
      the other. With the contracts of `FileResults` and `FileResultsMembers` on a single
      entry this fixes the results: one per regular file, in listing order. */
  lemma {:induction false} FileResultsAppend<T>(action: Path -> Result<T, LocatedError>, rel: Path,
                                                a: seq<Entry>, b: seq<Entry>)
    ensures FileResults(action, rel, a + b) == FileResults(action, rel, a) + FileResults(action, rel, b)
    decreases |b|
  {
    if |b| == 0 {
      assert a + b == a;
    } else {
      var init := b[..|b| - 1];
      FileResultsAppend(action, rel, a, init);
      assert (a + b)[..|a + b| - 1] == a + init;
      assert (a + b)[|a + b| - 1] == b[|b| - 1];
    }
  }

  /** The action succeeds on every regular file among `es`. */
  predicate FilesOk<T>(action: Path -> Result<T, LocatedError>, rel: Path, es: seq<Entry>) {
    forall i :: 0 <= i < |es| ==> (IsFile(es[i]) ==> action(EntryPath(rel, es[i])).Ok?)
  }

  lemma {:induction false} FileResultsOkIff<T>(action: Path -> Result<T, LocatedError>, rel: Path, es: seq<Entry>)
    ensures AllOk(FileResults(action, rel, es)) <==> FilesOk(action, rel, es)
    decreases |es|
  {
    if |es| > 0 {
      var init := es[..|es| - 1];
      var last := es[|es| - 1];
      FileResultsOkIff(action, rel, init);
      var prs := FileResults(action, rel, init);
      var rs := FileResults(action, rel, es);
      assert FilesOk(action, rel, es) <==> FilesOk(action, rel, init) && (IsFile(last) ==> action(EntryPath(rel, last)).Ok?) by {
        assert forall i :: 0 <= i < |init| ==> init[i] == es[i];
      }
      if IsFile(last) {
        assert rs == prs + [action(EntryPath(rel, last))];
        AllOkSnoc(prs, action(EntryPath(rel, last)));
      } else {
        assert rs == prs;
      }
    }
  }

  /** One more result keeps a list all-successful exactly when that result succeeds. */
  lemma AllOkSnoc<T, E>(prs: seq<Result<T, E>>, x: Result<T, E>)
    ensures AllOk(prs + [x]) <==> AllOk(prs) && x.Ok?
  {
    var rs := prs + [x];
    assert rs[|prs|] == x;
    assert forall j :: 0 <= j < |prs| ==> rs[j] == prs[j];
  }

  /** The walks of the subdirectories among the first `n` entries of `node`, in listing
      order. */
  function DirResults<T>(src: Path, dst: Option<Path>, action: Path -> Result<T, LocatedError>,
                         combine: seq<T> -> T, rel: Path, node: Node, n: nat)
    : (rs: seq<Result<T, Errors>>)
    requires node.listing.Ok? && n <= |node.listing.value.entries|
    ensures |rs| <= n
    ensures forall j :: 0 <= j < |rs| ==> (rs[j].Err? ==> !IsEmpty(rs[j].error))
    decreases node, 0, n
  {
    if n == 0 then []
    else
      var e := node.listing.value.entries[n - 1];
      var prefix := DirResults(src, dst, action, combine, rel, node, n - 1);
      prefix + (if IsDir(e) then [Dir(src, dst, action, combine, EntryPath(rel, e), e.meta.value.node)] else [])
  }

  /** How many of `es` are directories. */
  function DirCount(es: seq<Entry>): nat {
    if |es| == 0 then 0 else DirCount(es[..|es| - 1]) + (if IsDir(es[|es| - 1]) then 1 else 0)
  }

  /** One walk per subdirectory, in listing order: there are as many results as
      subdirectories among the first `n` entries, and the walk of the subdirectory at entry
      `i` sits at position `DirCount(es[..i])`, the number of subdirectories listed before
      it. */
  lemma {:induction false} DirResultsPositions<T>(src: Path, dst: Option<Path>, action: Path -> Result<T, LocatedError>,
                                                  combine: seq<T> -> T, rel: Path, node: Node, n: nat)
    requires node.listing.Ok? && n <= |node.listing.value.entries|
    ensures |DirResults(src, dst, action, combine, rel, node, n)| == DirCount(node.listing.value.entries[..n])
    ensures var es := node.listing.value.entries;
            forall i :: 0 <= i < n && IsDir(es[i]) ==>
              && DirCount(es[..i]) < |DirResults(src, dst, action, combine, rel, node, n)|
              && DirResults(src, dst, action, combine, rel, node, n)[DirCount(es[..i])]
                 == Dir(src, dst, action, combine, EntryPath(rel, es[i]), es[i].meta.value.node)
    decreases n
  {
    var es := node.listing.value.entries;
    if n == 0 {
      assert es[..0] == [];
    } else {
      DirResultsPositions(src, dst, action, combine, rel, node, n - 1);
      var e := es[n - 1];
      var prs := DirResults(src, dst, action, combine, rel, node, n - 1);
      var rs := DirResults(src, dst, action, combine, rel, node, n);
      assert es[..n][..n - 1] == es[..n - 1];
      assert es[..n][n - 1] == e;
      assert DirCount(es[..n]) == DirCount(es[..n - 1]) + (if IsDir(e) then 1 else 0);
      if IsDir(e) {
        assert rs == prs + [Dir(src, dst, action, combine, EntryPath(rel, e), e.meta.value.node)];
      } else {
        assert rs == prs;
      }
      forall i | 0 <= i < n && IsDir(es[i])
        ensures && DirCount(es[..i]) < |rs|
                && rs[DirCount(es[..i])] == Dir(src, dst, action, combine, EntryPath(rel, es[i]), es[i].meta.value.node)
      {
        if i < n - 1 {
          assert DirCount(es[..i]) < |prs|;
        }
      }
    }
  }

  /** `dir` for the directory `rel` below the source root `src`. With a destination root
      `dst` it first creates the mirror directory there (builder, linker); without one
      it creates nothing (peeker). */
  function Dir<T>(src: Path, dst: Option<Path>, action: Path -> Result<T, LocatedError>,
                  combine: seq<T> -> T, rel: Path, node: Node)
    : (r: Result<T, Errors>)
    ensures r.Err? ==> !IsEmpty(r.error)
    ensures dst.Some? && !MkdirOk(node.mkdir) ==>
              r == Err(Single(LocatedError(JoinPath(dst.value, rel), Io(node.mkdir.error))))
    ensures (dst.None? || MkdirOk(node.mkdir)) && ListingError(JoinPath(src, rel), node.listing).Some? ==>
              r == Err(Single(ListingError(JoinPath(src, rel), node.listing).value))
    decreases node, 1
  {
    if dst.Some? && !MkdirOk(node.mkdir) then
      Err(Single(Locate(Io(node.mkdir.error), JoinPath(dst.value, rel))))
    else
      match ListingError(JoinPath(src, rel), node.listing)
      case Some(e) => Err(Single(e))
      case None =>
        var es := node.listing.value.entries;
        Merge(combine, FileResults(action, rel, es), DirResults(src, dst, action, combine, rel, node, |es|))
  }

  /** The walk succeeds on every subdirectory among the first `n` entries of `node`. */
  predicate SubdirsOk<T>(src: Path, dst: Option<Path>, action: Path -> Result<T, LocatedError>,
                         combine: seq<T> -> T, rel: Path, node: Node, n: nat)
    requires node.listing.Ok? && n <= |node.listing.value.entries|
  {
    var es := node.listing.value.entries;
    forall i :: 0 <= i < n ==> (IsDir(es[i]) ==> Dir(src, dst, action, combine, EntryPath(rel, es[i]), es[i].meta.value.node).Ok?)
  }

  lemma {:induction false} DirResultsOkIff<T>(src: Path, dst: Option<Path>, action: Path -> Result<T, LocatedError>,
                                              combine: seq<T> -> T, rel: Path, node: Node, n: nat)
    requires node.listing.Ok? && n <= |node.listing.value.entries|
    ensures AllOk(DirResults(src, dst, action, combine, rel, node, n))
            <==> SubdirsOk(src, dst, action, combine, rel, node, n)
    decreases n
  {
    if n > 0 {
      DirResultsOkIff(src, dst, action, combine, rel, node, n - 1);
      var es := node.listing.value.entries;
      var e := es[n - 1];
      var prs := DirResults(src, dst, action, combine, rel, node, n - 1);
      var rs := DirResults(src, dst, action, combine, rel, node, n);
      assert SubdirsOk(src, dst, action, combine, rel, node, n)
             <==> SubdirsOk(src, dst, action, combine, rel, node, n - 1)
                  && (IsDir(e) ==> Dir(src, dst, action, combine, EntryPath(rel, e), e.meta.value.node).Ok?);
      if IsDir(e) {
        var sub := Dir(src, dst, action, combine, EntryPath(rel, e), e.meta.value.node);
        assert rs == prs + [sub];
        AllOkSnoc(prs, sub);
      } else {
        assert rs == prs;
      }
    }
  }

  /** The walk succeeds exactly when everything it visits succeeds: every directory is
      created (or already there), listed and its entries' metadata read, every regular
      file's action succeeds, all the way down. */
  ghost predicate Healthy<T>(src: Path, dst: Option<Path>, action: Path -> Result<T, LocatedError>,
                             rel: Path, node: Node)
    decreases node
  {
    && (dst.None? || MkdirOk(node.mkdir))
    && ListingError(JoinPath(src, rel), node.listing).None?
    && var es := node.listing.value.entries;
       forall i :: 0 <= i < |es| ==>
         && (IsFile(es[i]) ==> action(EntryPath(rel, es[i])).Ok?)
         && (IsDir(es[i]) ==> Healthy(src, dst, action, EntryPath(rel, es[i]), es[i].meta.value.node))
  }

  lemma {:induction false} DirOkIff<T>(src: Path, dst: Option<Path>, action: Path -> Result<T, LocatedError>,
                                       combine: seq<T> -> T, rel: Path, node: Node)
    ensures Dir(src, dst, action, combine, rel, node).Ok? <==> Healthy(src, dst, action, rel, node)
    decreases node
  {
    if (dst.None? || MkdirOk(node.mkdir)) && ListingError(JoinPath(src, rel), node.listing).None? {
      var es := node.listing.value.entries;
      FileResultsOkIff(action, rel, es);
      DirResultsOkIff(src, dst, action, combine, rel, node, |es|);
      forall i | 0 <= i < |es| && IsDir(es[i])
        ensures Dir(src, dst, action, combine, EntryPath(rel, es[i]), es[i].meta.value.node).Ok?
                <==> Healthy(src, dst, action, EntryPath(rel, es[i]), es[i].meta.value.node)
      {
        DirOkIff(src, dst, action, combine, EntryPath(rel, es[i]), es[i].meta.value.node);
      }
    }
  }

  /** The reference order of a failed level: the file errors, then each failed
      subdirectory's errors in turn. */
  function ConcatErrors<T>(rs: seq<Result<T, Errors>>): seq<LocatedError> {
    if |rs| == 0 then []
    else (if rs[0].Err? then rs[0].error.errors else []) + ConcatErrors(rs[1..])
  }

  lemma {:induction false} ConcatErrorsSnoc<T>(rs: seq<Result<T, Errors>>, r: Result<T, Errors>)
    ensures ConcatErrors(rs + [r]) == ConcatErrors(rs) + (if r.Err? then r.error.errors else [])
    decreases |rs|
  {
    var tail: seq<LocatedError> := if r.Err? then r.error.errors else [];
    if |rs| == 0 {
      assert rs + [r] == [r];
      assert [r][1..] == [];
      assert ConcatErrors([r]) == tail + ConcatErrors([r][1..]);
    } else {
      var head: seq<LocatedError> := if rs[0].Err? then rs[0].error.errors else [];
      assert (rs + [r])[0] == rs[0];
      assert (rs + [r])[1..] == rs[1..] + [r];
      ConcatErrorsSnoc(rs[1..], r);
      calc {
        ConcatErrors(rs + [r]);
        head + ConcatErrors(rs[1..] + [r]);
        head + (ConcatErrors(rs[1..]) + tail);
        (head + ConcatErrors(rs[1..])) + tail;
        ConcatErrors(rs) + tail;
      }
    }
  }

  /** Joining the subdirectory collections one by one appends them in order. */
  lemma {:induction false} JoinAllConcatenates<T>(acc: Errors, rs: seq<Result<T, Errors>>)
    ensures JoinAll(acc, rs).errors == acc.errors + ConcatErrors(rs)
    decreases |rs|
  {
    if |rs| == 0 {
      assert acc.errors + [] == acc.errors;
    } else {
      var init := rs[..|rs| - 1];
      var last := rs[|rs| - 1];
      JoinAllConcatenates(acc, init);
      assert rs == init + [last];
      ConcatErrorsSnoc(init, last);
      JoinAllStep(acc, rs);
    }
  }

  lemma JoinAllStep<T>(acc: Errors, rs: seq<Result<T, Errors>>)
    requires |rs| > 0
    requires JoinAll(acc, rs[..|rs| - 1]).errors == acc.errors + ConcatErrors(rs[..|rs| - 1])
    requires ConcatErrors(rs) == ConcatErrors(rs[..|rs| - 1])
                                 + (if rs[|rs| - 1].Err? then rs[|rs| - 1].error.errors else [])
    ensures JoinAll(acc, rs).errors == acc.errors + ConcatErrors(rs)
  {
    JoinAllSnoc(acc, rs);
    Regroup(acc.errors, ConcatErrors(rs[..|rs| - 1]),
            if rs[|rs| - 1].Err? then rs[|rs| - 1].error.errors else [],
            ConcatErrors(rs), JoinAll(acc, rs).errors);
  }

  /** One more subdirectory result appends its errors, if it failed. */
  lemma JoinAllSnoc<T>(acc: Errors, rs: seq<Result<T, Errors>>)
    requires |rs| > 0
    ensures JoinAll(acc, rs).errors
            == JoinAll(acc, rs[..|rs| - 1]).errors + (if rs[|rs| - 1].Err? then rs[|rs| - 1].error.errors else [])
  {
    if rs[|rs| - 1].Ok? {
      assert JoinAll(acc, rs[..|rs| - 1]).errors + [] == JoinAll(acc, rs[..|rs| - 1]).errors;
    }
  }

  lemma Regroup(front: seq<LocatedError>, middle: seq<LocatedError>, back: seq<LocatedError>,
                total: seq<LocatedError>, joined: seq<LocatedError>)
    requires joined == (front + middle) + back
    requires total == middle + back
    ensures joined == front + total
  {
  }

  /** A failed walk reports the failures of its own files in listing order, followed by
      everything each failed subdirectory reported, in listing order. */
  lemma DirErrorOrder<T>(src: Path, dst: Option<Path>, action: Path -> Result<T, LocatedError>,
                         combine: seq<T> -> T, rel: Path, node: Node)
    requires dst.None? || MkdirOk(node.mkdir)
    requires ListingError(JoinPath(src, rel), node.listing).None?
    requires Dir(src, dst, action, combine, rel, node).Err?
    ensures var es := node.listing.value.entries;
            Dir(src, dst, action, combine, rel, node).error.errors
            == FileErrors(FileResults(action, rel, es))
               + ConcatErrors(DirResults(src, dst, action, combine, rel, node, |es|))
  {
    var es := node.listing.value.entries;
    JoinAllConcatenates(FromVec(FileErrors(FileResults(action, rel, es))),
                        DirResults(src, dst, action, combine, rel, node, |es|));
  }

  /** Every failing file action of a listed directory is reported: the walk fails and
      the action's error is among its errors. */
  lemma FileFailureReported<T>(src: Path, dst: Option<Path>, action: Path -> Result<T, LocatedError>,
                               combine: seq<T> -> T, rel: Path, node: Node, i: nat)
    requires dst.None? || MkdirOk(node.mkdir)
    requires ListingError(JoinPath(src, rel), node.listing).None?
    requires i < |node.listing.value.entries| && IsFile(node.listing.value.entries[i])
    requires action(EntryPath(rel, node.listing.value.entries[i])).Err?
    ensures Dir(src, dst, action, combine, rel, node).Err?
    ensures action(EntryPath(rel, node.listing.value.entries[i])).error
            in Dir(src, dst, action, combine, rel, node).error.errors
  {
    var es := node.listing.value.entries;
    DirOkIff(src, dst, action, combine, rel, node);
    assert !Healthy(src, dst, action, rel, node);
    DirErrorOrder(src, dst, action, combine, rel, node);
    FileErrorsContain(action, rel, es, i);
  }

  lemma {:induction false} FileErrorsContain<T>(action: Path -> Result<T, LocatedError>, rel: Path,
                                                es: seq<Entry>, i: nat)
    requires i < |es| && IsFile(es[i]) && action(EntryPath(rel, es[i])).Err?
    ensures action(EntryPath(rel, es[i])).error in FileErrors(FileResults(action, rel, es))
    decreases |es|
  {
    var init := es[..|es| - 1];
    var rs := FileResults(action, rel, es);
    var prs := FileResults(action, rel, init);
    if i == |es| - 1 {
      assert rs == prs + [action(EntryPath(rel, es[i]))];
      assert rs[..|rs| - 1] == prs;
    } else {
      assert init[i] == es[i];
      FileErrorsContain(action, rel, init, i);
      if IsFile(es[|es| - 1]) {
        assert rs[..|rs| - 1] == prs;
      } else {
        assert rs == prs;
      }
    }
  }

  /** Without a destination the walk never looks at the directory-creation outcome. */
  lemma NoDestinationIgnoresMkdir<T>(src: Path, action: Path -> Result<T, LocatedError>,
                                     combine: seq<T> -> T, rel: Path, node: Node, mkdir: Result<(), IoError>)
    ensures Dir(src, None, action, combine, rel, node)
            == Dir(src, None, action, combine, rel, Node(mkdir, node.listing))
  {
    var other := Node(mkdir, node.listing);
    if ListingError(JoinPath(src, rel), node.listing).None? {
      var es := node.listing.value.entries;
      DirResultsListingOnly(src, action, combine, rel, node, other, |es|);
    }
  }

  lemma {:induction false} DirResultsListingOnly<T>(src: Path, action: Path -> Result<T, LocatedError>,
                                                    combine: seq<T> -> T, rel: Path, a: Node, b: Node, n: nat)
    requires a.listing == b.listing && a.listing.Ok? && n <= |a.listing.value.entries|
    ensures DirResults(src, None, action, combine, rel, a, n) == DirResults(src, None, action, combine, rel, b, n)
    decreases n
  {
    if n > 0 {
      DirResultsListingOnly(src, action, combine, rel, a, b, n - 1);
      assert a.listing.value.entries[n - 1] == b.listing.value.entries[n - 1];
    }
  }
}
