/** Located errors and the append-only error collection the three walkers return
    (src/error.rs). */
module Error {
  import opened Wrappers
  import opened Paths

  /** The kinds of `io::ErrorKind` the walkers tell apart; every other kind is `OtherIo`. */
  datatype IoError = NotFound | AlreadyExists | OtherIo(message: string)

  /** `InnerError`: what went wrong, before it is tagged with a path. */
  datatype InnerError =
    | Io(io: IoError)
    | Template(message: string)
    | Toml(message: string)
    | Type

  /** `Error`: a failure together with the path it concerns. */
  datatype LocatedError = LocatedError(location: Path, inner: InnerError)

  /** `Errors`: the located failures of a run, in the order they were merged. */
  datatype Errors = Errors(errors: seq<LocatedError>)

  /** `Errors::default()`. */
  function Default(): (r: Errors)
    ensures IsEmpty(r)
    ensures |r.errors| == 0
  {
    Errors([])
  }

  /** `From<Vec<Error>>`: exactly the given errors, in the given order. */
  function FromVec(errors: seq<LocatedError>): (r: Errors)
    ensures |r.errors| == |errors|
    ensures forall i :: 0 <= i < |errors| ==> r.errors[i] == errors[i]
  {
    Errors(errors)
  }

  /** `From<E>`: a collection holding the one error. */
  function Single(e: LocatedError): (r: Errors)
    ensures |r.errors| == 1 && r.errors[0] == e
    ensures !IsEmpty(r)
  {
    Errors([e])
  }

  /** `Errors::join`: `a`'s errors followed by `b`'s. */
  function Join(a: Errors, b: Errors): (r: Errors)
    ensures |r.errors| == |a.errors| + |b.errors|
    ensures forall i :: 0 <= i < |a.errors| ==> r.errors[i] == a.errors[i]
    ensures forall i :: 0 <= i < |b.errors| ==> r.errors[|a.errors| + i] == b.errors[i]
  {
    Errors(a.errors + b.errors)
  }

  /** `Errors::is_empty`. */
  predicate IsEmpty(e: Errors) {
    |e.errors| == 0
  }

  /** The empty collection is a unit of `Join` on both sides. */
  lemma JoinIdentity(a: Errors)
    ensures Join(Default(), a) == a
    ensures Join(a, Default()) == a
  {
    assert [] + a.errors == a.errors;
    assert a.errors + [] == a.errors;
  }

  /** `Join` is associative, so with `Default` it makes `Errors` a monoid. */
  lemma JoinAssociative(a: Errors, b: Errors, c: Errors)
    ensures Join(Join(a, b), c) == Join(a, Join(b, c))
  {
    var left := Join(Join(a, b), c);
    var right := Join(a, Join(b, c));
    assert left.errors == (a.errors + b.errors) + c.errors;
    assert right.errors == a.errors + (b.errors + c.errors);
  }

  /** A joined collection is empty exactly when both parts are. */
  lemma JoinEmpty(a: Errors, b: Errors)
    ensures IsEmpty(Join(a, b)) <==> IsEmpty(a) && IsEmpty(b)
  {
  }

  /** `with_location` on a bare failure. */
  function Locate(e: InnerError, path: Path): (r: LocatedError)
    ensures r.location == path && r.inner == e
  {
    LocatedError(path, e)
  }

  /** `with_location` on a `Result`: `Ok` passes through untouched, a failure is tagged
      with `path`. */
  function WithLocation<T>(r: Result<T, InnerError>, path: Path): (o: Result<T, LocatedError>)
    ensures r.Ok? <==> o.Ok?
    ensures r.Ok? ==> o.value == r.value
    ensures r.Err? ==> o.error.location == path && o.error.inner == r.error
  {
    match r
    case Ok(v) => Ok(v)
    case Err(e) => Err(Locate(e, path))
  }

  /** An I/O failure tagged with a path. */
  function LocateIo<T>(r: Result<T, IoError>, path: Path): (o: Result<T, LocatedError>)
    ensures r.Ok? <==> o.Ok?
    ensures r.Ok? ==> o.value == r.value
    ensures r.Err? ==> o.error == LocatedError(path, Io(r.error))
  {
    match r
    case Ok(v) => Ok(v)
    case Err(e) => Err(Locate(Io(e), path))
  }

  /** The lines `Errors::log` emits: a header with the count, then for each error a line
      with its index and location and a line with its message. */
  datatype LogLine =
    | Header(count: nat)
    | At(index: nat, location: Path)
    | Message(inner: InnerError)

  function LogFrom(errors: seq<LocatedError>, first: nat): (lines: seq<LogLine>)
    ensures |lines| == 2 * |errors|
    ensures forall i :: 0 <= i < |errors| ==>
              lines[2 * i] == At(first + i, errors[i].location) && lines[2 * i + 1] == Message(errors[i].inner)
  {
    if |errors| == 0 then []
    else [At(first, errors[0].location), Message(errors[0].inner)] + LogFrom(errors[1..], first + 1)
  }

  /** `Errors::log`: nothing for an empty collection; otherwise one header with the count
      and two lines per error, indexed from 0. */
  function Log(e: Errors): (lines: seq<LogLine>)
    ensures IsEmpty(e) ==> lines == []
    ensures !IsEmpty(e) ==> |lines| == 1 + 2 * |e.errors| && lines[0] == Header(|e.errors|)
    ensures forall i :: 0 <= i < |e.errors| ==>
              lines[1 + 2 * i] == At(i, e.errors[i].location) && lines[2 + 2 * i] == Message(e.errors[i].inner)
  {
    if IsEmpty(e) then [] else [Header(|e.errors|)] + LogFrom(e.errors, 0)
  }
}
