/**
 * Shapes of multi-dimensional arrays (the `Dimension` capability) and the
 * dataspace resource that is built from a shape and reports one back.
 *
 * Calls into the native runtime are not modelled; their answers are the
 * fields of a `Runtime` value, each a function of the identifier asked about.
 */
module Space {
  import opened Wrappers

  /** An array extent (`Ix`, a `usize`). */
  type Ix = nat

  /** The runtime's extent type (`hsize_t`). */
  type Hsize = nat

  /** An identifier handed out by the runtime (`hid_t`). */
  type Hid = int

  /** `H5S_UNLIMITED`: the all-ones `hsize_t`, marking an axis without a maximum extent. */
  const UNLIMITED: Hsize := 0xFFFF_FFFF_FFFF_FFFF

  /** The kinds the runtime reports for an identifier (`H5I_type_t`). */
  datatype IdKind = BadId | FileId | GroupId | DatatypeId | DataspaceId | DatasetId | AttrId | OtherId

  /**
   * What the native runtime answers, as functions of the call's arguments:
   * `H5Screate_simple` (None: the call failed), `get_id_type`, whether
   * `Handle::new` accepts the identifier, `H5Sget_simple_extent_ndims` and
   * the extents `H5Sget_simple_extent_dims` writes (None: the call failed).
   */
  datatype Runtime = Runtime(
    createSimple: (int, seq<Hsize>, seq<Hsize>) -> Option<Hid>,
    idType: Hid -> IdKind,
    handleAccepts: Hid -> bool,
    extentNdims: Hid -> Option<nat>,
    extentDims: Hid -> Option<seq<Hsize>>)

  /** An owned runtime identifier; its release is not modelled. */
  datatype Handle = Handle(id: Hid)

  /** A dataspace resource: it owns exactly one handle. */
  datatype Dataspace = Dataspace(handle: Handle) {
    function Id(): Hid { handle.id }
  }

  datatype Error =
    | CallFailed              // a runtime call reported failure (`h5try!`)
    | InvalidDataspaceId(id: Hid)   // "Invalid dataspace id: {id}"
    | HandleFailed(id: Hid)   // `Handle::new` refused the identifier

  /**
   * The implementations of `Dimension`: `()`, `Ix`, `(Ix,)`, `(Ix, Ix)`,
   * `Vec<Ix>`, `&T` and `Dataspace`. A live dataspace is paired with the
   * runtime that answers its queries at the moment they are made.
   */
  datatype Shape =
    | Unit
    | Scalar(n: Ix)
    | Single(first: Ix)
    | Pair(first: Ix, second: Ix)
    | Extents(v: seq<Ix>)
    | Borrowed(target: Shape)
    | Live(space: Dataspace, rt: Runtime)

  /** `Dimension::ndim`; a dataspace whose rank query fails reports rank 0. */
  function Ndim(d: Shape): nat {
    match d
    case Unit => 0
    case Scalar(_) => 1
    case Single(_) => 1
    case Pair(_, _) => 2
    case Extents(v) => |v|
    case Borrowed(t) => Ndim(t)
    case Live(ds, rt) => rt.extentNdims(ds.Id()).GetOr(0)
  }

  /** `Dimension::dims`: the extents, in order. */
  function Dims(d: Shape): seq<Ix> {
    match d
    case Unit => []
    case Scalar(n) => [n]
    case Single(a) => [a]
    case Pair(a, b) => [a, b]
    case Extents(v) => v
    case Borrowed(t) => Dims(t)
    case Live(ds, rt) => LiveDims(ds, rt)
  }

  /**
   * `Dataspace::dims`: nothing when the rank is 0 or the extent query fails;
   * otherwise a buffer of exactly `ndim` entries that the runtime has filled.
   */
  function LiveDims(ds: Dataspace, rt: Runtime): seq<Ix> {
    var n := Ndim(Live(ds, rt));
    if n > 0 then
      match rt.extentDims(ds.Id())
      case Some(e) => Filled(n, e)
      case None => []
    else []
  }

  /**
   * A buffer of `n` entries after the runtime wrote `e` into it: the
   * runtime writes as many entries as both have; the rest keep the buffer's
   * initial content, which the model takes to be 0.
   */
  function Filled(n: nat, e: seq<Hsize>): seq<Hsize> {
    seq(n, i requires 0 <= i < n => if i < |e| then e[i] else 0)
  }

  /** A left fold with multiplication, `fold(acc, |acc, &el| acc * el)`. */
  function Fold(acc: nat, s: seq<nat>): nat
    decreases s
  {
    if |s| == 0 then acc else Fold(acc * s[0], s[1..])
  }

  /** Multiplication of the elements, defined element by element; the empty product is 1. */
  function Times(s: seq<nat>): nat
    decreases s
  {
    if |s| == 0 then 1 else s[0] * Times(s[1..])
  }

  /** The fold started at `acc` is `acc` times the product of the elements. */
  lemma {:induction false} FoldTimes(acc: nat, s: seq<nat>)
    ensures Fold(acc, s) == acc * Times(s)
    decreases s
  {
    if |s| > 0 {
      FoldTimes(acc * s[0], s[1..]);
      assert (acc * s[0]) * Times(s[1..]) == acc * (s[0] * Times(s[1..]));
    }
  }

  /** The ordinary product of a sequence, `fold(1, ..)`; the empty product is 1. */
  function Product(s: seq<nat>): (p: nat)
    ensures p == Times(s)
  {
    FoldTimes(1, s);
    Fold(1, s)
  }

  /** `Dimension::size`: 0 for an empty extent list, otherwise the product. */
  function Size(d: Shape): Ix {
    var dims := Dims(d);
    if |dims| == 0 then 0 else Product(dims)
  }

  /** True when `d` is, or borrows, a live dataspace whose extent query failed at a positive rank. */
  predicate ExtentsLost(d: Shape) {
    match d
    case Borrowed(t) => ExtentsLost(t)
    case Live(ds, rt) => Ndim(d) > 0 && rt.extentDims(ds.Id()).None?
    case _ => false
  }

  /**
   * `ndim()` equals the number of extents `dims()` returns, for every shape
   * except a dataspace whose extent query failed at a positive rank; that
   * one reports a positive rank and no extents at all.
   */
  lemma {:induction false} RankAgreesWithExtents(d: Shape)
    ensures Ndim(d) == |Dims(d)| <==> !ExtentsLost(d)
    ensures ExtentsLost(d) ==> Ndim(d) > 0 && Dims(d) == []
  {
    match d
    case Borrowed(t) => RankAgreesWithExtents(t);
    case _ =>
  }

  /** The product vanishes exactly when an accumulator or an element does. */
  lemma {:induction false} FoldIsZero(acc: nat, s: seq<nat>)
    ensures Fold(acc, s) == 0 <==> acc == 0 || 0 in s
    decreases s
  {
    if |s| > 0 {
      FoldIsZero(acc * s[0], s[1..]);
      assert s == [s[0]] + s[1..];
    }
  }

  /** `size()` is 0 exactly when there are no extents or one of them is 0. */
  lemma SizeIsZero(d: Shape)
    ensures Size(d) == 0 <==> |Dims(d)| == 0 || 0 in Dims(d)
  {
    FoldIsZero(1, Dims(d));
  }

  /**
   * `size()` by rank: 0 at rank 0 (not the empty product 1), the product of
   * the extents at a positive rank, and 0 for a dataspace whose extents were
   * lost although its rank is positive.
   */
  lemma SizeByRank(d: Shape)
    ensures Ndim(d) == 0 ==> Size(d) == 0
    ensures Ndim(d) > 0 && !ExtentsLost(d) ==> Size(d) == Times(Dims(d))
    ensures ExtentsLost(d) ==> Ndim(d) > 0 && Size(d) == 0
  {
    RankAgreesWithExtents(d);
  }

  /** `d` behind `k` levels of `&`. */
  function BorrowedBy(d: Shape, k: nat): Shape {
    if k == 0 then d else Borrowed(BorrowedBy(d, k - 1))
  }

  /** The `&T` implementation forwards everything to `T`, through any number of borrows. */
  lemma {:induction false} BorrowedIsTransparent(t: Shape, k: nat)
    ensures Ndim(BorrowedBy(t, k)) == Ndim(t)
    ensures Dims(BorrowedBy(t, k)) == Dims(t)
    ensures Size(BorrowedBy(t, k)) == Size(t)
    ensures ExtentsLost(BorrowedBy(t, k)) == ExtentsLost(t)
  {
    if k > 0 {
      BorrowedIsTransparent(t, k - 1);
    }
  }

  /** The expected values of the unit test over the concrete shapes. */
  lemma DimensionExamples()
    ensures Ndim(Unit) == 0 && Dims(Unit) == [] && Size(Unit) == 0
    ensures Ndim(Borrowed(Unit)) == 0 && Dims(Borrowed(Unit)) == [] && Size(Borrowed(Unit)) == 0
    ensures Ndim(Scalar(2)) == 1 && Dims(Scalar(2)) == [2] && Size(Scalar(2)) == 2
    ensures Ndim(Borrowed(Scalar(3))) == 1 && Dims(Borrowed(Scalar(3))) == [3] && Size(Borrowed(Scalar(3))) == 3
    ensures Ndim(Single(4)) == 1 && Dims(Single(4)) == [4] && Size(Single(4)) == 4
    ensures Ndim(Borrowed(Single(5))) == 1 && Dims(Borrowed(Single(5))) == [5] && Size(Borrowed(Single(5))) == 5
    ensures Ndim(Pair(1, 2)) == 2 && Dims(Pair(1, 2)) == [1, 2] && Size(Pair(1, 2)) == 2
    ensures Ndim(Borrowed(Pair(3, 4))) == 2 && Dims(Borrowed(Pair(3, 4))) == [3, 4] && Size(Borrowed(Pair(3, 4))) == 12
    ensures Ndim(Extents([2, 3])) == 2 && Dims(Extents([2, 3])) == [2, 3] && Size(Extents([2, 3])) == 6
    ensures Ndim(Borrowed(Extents([4, 5]))) == 2 && Dims(Borrowed(Extents([4, 5]))) == [4, 5]
    ensures Size(Borrowed(Extents([4, 5]))) == 20
  {
    assert [2, 3][1..] == [3];
    assert [4, 5][1..] == [5];
  }

  /**
   * The best-effort queries of a live dataspace: a failed rank query reads
   * as rank 0; the extents are empty when the rank is 0 or the extent query
   * fails, and otherwise number exactly `ndim`; a runtime that answers with
   * `ndim` extents has them returned unchanged.
   */
  lemma LiveQueries(ds: Dataspace, rt: Runtime)
    ensures rt.extentNdims(ds.Id()).None? ==> Ndim(Live(ds, rt)) == 0 && Dims(Live(ds, rt)) == [] && Size(Live(ds, rt)) == 0
    ensures Dims(Live(ds, rt)) == [] <==> Ndim(Live(ds, rt)) == 0 || rt.extentDims(ds.Id()).None?
    ensures |Dims(Live(ds, rt))| > 0 ==> |Dims(Live(ds, rt))| == Ndim(Live(ds, rt))
    ensures Ndim(Live(ds, rt)) > 0 && rt.extentDims(ds.Id()).Some? && |rt.extentDims(ds.Id()).value| == Ndim(Live(ds, rt))
            ==> Dims(Live(ds, rt)) == rt.extentDims(ds.Id()).value
  {
  }

  /**
   * `H5Sget_simple_extent_dims` writing into the caller's buffer: on success
   * the runtime's extents overwrite the leading entries.
   */
  method GetSimpleExtentDims(ds: Dataspace, rt: Runtime, buf: array<Hsize>) returns (ok: bool)
    modifies buf
    ensures ok <==> rt.extentDims(ds.Id()).Some?
    ensures !ok ==> buf[..] == old(buf[..])
    ensures ok ==> forall i :: 0 <= i < buf.Length && i < |rt.extentDims(ds.Id()).value| ==>
                     buf[i] == rt.extentDims(ds.Id()).value[i]
    ensures ok ==> forall i :: 0 <= i < buf.Length && |rt.extentDims(ds.Id()).value| <= i ==> buf[i] == old(buf[i])
  {
    match rt.extentDims(ds.Id()) {
      case None =>
        ok := false;
      case Some(e) =>
        forall i | 0 <= i < buf.Length && i < |e| {
          buf[i] := e[i];
        }
        ok := true;
    }
  }

  /**
   * `Dataspace::dims`: asks for the rank, allocates a buffer of that length
   * and lets the runtime fill it; any failure gives an empty extent list.
   */
  method DataspaceDims(ds: Dataspace, rt: Runtime) returns (dims: seq<Ix>)
    ensures dims == Dims(Live(ds, rt))
    ensures |dims| == 0 || |dims| == Ndim(Live(ds, rt))
  {
    var ndim := rt.extentNdims(ds.Id()).GetOr(0);
    if ndim > 0 {
      var buf := new Hsize[ndim](_ => 0);
      var ok := GetSimpleExtentDims(ds, rt, buf);
      if ok {
        return buf[..];
      }
    }
    return [];
  }

  /** `from_id`: only an identifier the runtime reports as a dataspace is wrapped. */
  function FromId(id: Hid, rt: Runtime): (r: Result<Dataspace, Error>)
    ensures r.Ok? <==> rt.idType(id) == DataspaceId && rt.handleAccepts(id)
    ensures r.Ok? ==> r.value.Id() == id
    ensures rt.idType(id) != DataspaceId ==> r == Err(InvalidDataspaceId(id))
  {
    match rt.idType(id)
    case DataspaceId =>
      if rt.handleAccepts(id) then Ok(Dataspace(Handle(id))) else Err(HandleFailed(id))
    case _ => Err(InvalidDataspaceId(id))
  }

  /** `n` maximum extents, every one unlimited. */
  function Unlimited(n: nat): seq<Hsize> {
    seq(n, _ => UNLIMITED)
  }

  /**
   * The outcome of `Dataspace::new(d)`: the runtime is asked to create a
   * dataspace of rank `ndim()` with the current extents `dims()` and every
   * maximum extent unlimited; its identifier then goes through `from_id`.
   */
  function Created(d: Shape, rt: Runtime): (r: Result<Dataspace, Error>)
    ensures rt.createSimple(Ndim(d), Dims(d), Unlimited(|Dims(d)|)).None? <==> r == Err(CallFailed)
    ensures r.Ok? <==> exists id :: rt.createSimple(Ndim(d), Dims(d), Unlimited(|Dims(d)|)) == Some(id) && FromId(id, rt).Ok?
    ensures r.Ok? ==> (rt.createSimple(Ndim(d), Dims(d), Unlimited(|Dims(d)|)) == Some(r.value.Id())
                       && rt.idType(r.value.Id()) == DataspaceId)
  {
    match rt.createSimple(Ndim(d), Dims(d), Unlimited(|Dims(d)|))
    case None => Err(CallFailed)
    case Some(id) => FromId(id, rt)
  }

  /** The loop of `Dataspace::new` that fills the two extent buffers. */
  method ExtentBuffers(d: Shape) returns (dims: seq<Hsize>, maxDims: seq<Hsize>)
    ensures |dims| == |Dims(d)| && |maxDims| == |Dims(d)|
    ensures forall i :: 0 <= i < |dims| ==> dims[i] == Dims(d)[i] && maxDims[i] == UNLIMITED
  {
    dims, maxDims := [], [];
    var extents := Dims(d);
    for k := 0 to |extents|
      invariant |dims| == k && |maxDims| == k
      invariant forall i :: 0 <= i < k ==> dims[i] == extents[i] && maxDims[i] == UNLIMITED
    {
      dims := dims + [extents[k]];
      maxDims := maxDims + [UNLIMITED];
    }
  }

  /** `Dataspace::new`. */
  method NewDataspace(d: Shape, rt: Runtime) returns (r: Result<Dataspace, Error>)
    ensures r == Created(d, rt)
    ensures r.Ok? ==> rt.idType(r.value.Id()) == DataspaceId
    ensures r.Ok? ==> rt.createSimple(Ndim(d), Dims(d), Unlimited(|Dims(d)|)) == Some(r.value.Id())
    ensures Ndim(d) == |Dims(d)| <==> !ExtentsLost(d)
    ensures ExtentsLost(d) ==> Ndim(d) > 0 && Dims(d) == []
  {
    RankAgreesWithExtents(d);
    var rank := Ndim(d);
    var dims, maxDims := ExtentBuffers(d);
    assert dims == Dims(d);
    assert maxDims == Unlimited(|Dims(d)|);
    match rt.createSimple(rank, dims, maxDims) {
      case None =>
        r := Err(CallFailed);
      case Some(id) =>
        r := FromId(id, rt);
    }
  }

  /**
   * A runtime that remembers creation: a dataspace it created reports back
   * the rank and the extents it was created with.
   */
  ghost predicate Echoes(rt: Runtime) {
    forall rank: nat, dims: seq<Hsize>, maxDims: seq<Hsize>, id: Hid
      :: rt.createSimple(rank, dims, maxDims) == Some(id) ==>
           rt.extentNdims(id) == Some(rank) && rt.extentDims(id) == Some(dims)
  }

  /**
   * Round trip: on a runtime that reports back what creation was given,
   * the dataspace `Dataspace::new(d)` builds has the rank, extents and size
   * of `d`, unless `d` had already lost its extents.
   */
  lemma CreatedReportsShape(d: Shape, rt: Runtime)
    requires Echoes(rt)
    requires Created(d, rt).Ok?
    requires !ExtentsLost(d)
    ensures Ndim(Live(Created(d, rt).value, rt)) == Ndim(d)
    ensures Dims(Live(Created(d, rt).value, rt)) == Dims(d)
    ensures Size(Live(Created(d, rt).value, rt)) == Size(d)
  {
    RankAgreesWithExtents(d);
    var ds := Created(d, rt).value;
    assert rt.createSimple(Ndim(d), Dims(d), Unlimited(|Dims(d)|)) == Some(ds.Id());
    if Ndim(d) > 0 {
      assert Filled(Ndim(d), Dims(d)) == Dims(d);
    }
  }
}
