/**
 * The random value generators of the type round-trip tests: shapes, ASCII
 * strings, vectors and arrays, and one `Gen` implementation per test type.
 *
 * Every generator takes the random source and returns the value together
 * with the source after the draws it made, in the order the source makes
 * them.
 */
module Gen {
  import opened Wrappers
  import opened Draws
  import Space

  type byte = x: int | 0 <= x < 0x100

  /** The upper bound of `gen_range(0, 11)`, which is excluded. */
  const EXTENT_BOUND: nat := 11

  /** The largest 7-bit value, the upper bound of the ASCII byte distribution. */
  const ASCII_MAX: nat := 127

  /** The upper bound of the variable-length generators' `Uniform::new_inclusive(0, 8)`. */
  const VAR_LEN_MAX: nat := 8

  // ---------------------------------------------------------------------------
  // UTF-8 lengths and the characters drawn

  /** `char::len_utf8`. */
  function Utf8Width(c: char): (w: nat)
    ensures 1 <= w <= 4
    ensures w == 1 <==> (c as int) < 0x80
  {
    if (c as int) < 0x80 then 1
    else if (c as int) < 0x800 then 2
    else if (c as int) < 0x1_0000 then 3
    else 4
  }

  /** `String::len`: the number of bytes of the UTF-8 encoding. */
  function Utf8Len(s: string): (n: nat)
    ensures |s| <= n <= 4 * |s|
  {
    if |s| == 0 then 0 else Utf8Len(s[..|s| - 1]) + Utf8Width(s[|s| - 1])
  }

  /** Pushing a character adds its width to the byte length. */
  lemma Utf8LenPush(s: string, c: char)
    ensures Utf8Len(s + [c]) == Utf8Len(s) + Utf8Width(c)
  {
    assert (s + [c])[..|s|] == s;
  }

  /** The character draw `k` of `rng` yields. */
  function CharAt(rng: Rng, k: nat): char {
    ScalarOf(rng.draw(rng.pos + k))
  }

  /** The characters other than `'\0'` among the first `n` that `gen::<char>()` yields from `rng` on, in order. */
  function Kept(rng: Rng, n: nat): (s: string)
    ensures |s| <= n
    ensures '\0' !in s
  {
    if n == 0 then []
    else Kept(rng, n - 1) + (if CharAt(rng, n - 1) == '\0' then [] else [CharAt(rng, n - 1)])
  }

  /** Some draw at `from` or later yields a character other than `'\0'`. */
  ghost predicate NonNulAhead(draw: nat -> nat, from: nat) {
    exists j: nat :: from <= j && ScalarOf(draw(j)) != '\0'
  }

  /** The stream never turns into nothing but `'\0'` characters. */
  ghost predicate NulNotForever(draw: nat -> nat) {
    forall from: nat :: NonNulAhead(draw, from)
  }

  /** On such a stream, some character draw at `n` or later is not `'\0'`. */
  lemma NonNulFrom(rng: Rng, n: nat) returns (k: nat)
    requires NulNotForever(rng.draw)
    ensures n <= k && CharAt(rng, k) != '\0'
  {
    assert NonNulAhead(rng.draw, rng.pos + n);
    var j: nat :| rng.pos + n <= j && ScalarOf(rng.draw(j)) != '\0';
    k := j - rng.pos;
  }

  /** More draws never keep fewer characters. */
  lemma {:induction false} KeptGrows(rng: Rng, n: nat, m: nat)
    requires n <= m
    ensures |Kept(rng, n)| <= |Kept(rng, m)|
    decreases m - n
  {
    if n < m {
      KeptGrows(rng, n, m - 1);
    }
  }

  /** On such a stream, enough draws keep at least `count` characters. */
  lemma {:induction false} EnoughDraws(rng: Rng, count: nat) returns (bound: nat)
    requires NulNotForever(rng.draw)
    ensures count <= |Kept(rng, bound)|
  {
    bound := 0;
    if count > 0 {
      var b := EnoughDraws(rng, count - 1);
      var k := NonNulFrom(rng, b);
      KeptGrows(rng, b, k);
      bound := k + 1;
    }
  }

  // ---------------------------------------------------------------------------
  // Shapes, strings, vectors and arrays

  /** `gen_shape`: `ndim` extents, each drawn from `gen_range(0, 11)`. */
  function GenShape(rng: Rng, ndim: nat): (r: (seq<nat>, Rng))
    ensures |r.0| == ndim
    ensures forall i :: 0 <= i < ndim ==> r.0[i] < EXTENT_BOUND
    ensures r.1 == rng.Advance(ndim)
  {
    if ndim == 0 then ([], rng)
    else
      var (prefix, r1) := GenShape(rng, ndim - 1);
      var (x, r2) := GenRange(r1, 0, EXTENT_BOUND);
      (prefix + [x], r2)
  }

  /** `gen_ascii`: `len` alphanumeric characters. */
  function GenAscii(rng: Rng, len: nat): (r: (string, Rng))
    ensures |r.0| == len
    ensures forall i :: 0 <= i < len ==> IsAlphanumeric(r.0[i])
    ensures r.1 == rng.Advance(len)
  {
    if len == 0 then ([], rng)
    else
      var (prefix, r1) := GenAscii(rng, len - 1);
      var (c, r2) := SampleAlphanumeric(r1);
      (prefix + [c], r2)
  }

  /** `gen_vec`: `size` elements, each produced by the element type's generator. */
  function GenVec<T>(rng: Rng, size: nat, elem: Rng -> (T, Rng)): (r: (seq<T>, Rng))
    ensures |r.0| == size
  {
    if size == 0 then ([], rng)
    else
      var (prefix, r1) := GenVec(rng, size - 1, elem);
      var (x, r2) := elem(r1);
      (prefix + [x], r2)
  }

  /** An n-dimensional array (`ArrayD<T>`): its shape and its elements in row-major order. */
  datatype ArrayD<T> = ArrayD(shape: seq<nat>, data: seq<T>)

  datatype ShapeError = IncompatibleShape

  /** `ArrayD::from_shape_vec`: accepted only when the element count matches the shape. */
  function FromShapeVec<T>(shape: seq<nat>, v: seq<T>): (r: Result<ArrayD<T>, ShapeError>)
    ensures r.Ok? <==> |v| == Space.Times(shape)
    ensures r.Ok? ==> r.value.shape == shape && r.value.data == v
  {
    if |v| == Space.Product(shape) then Ok(ArrayD(shape, v)) else Err(IncompatibleShape)
  }

  /**
   * `gen_arr`: a random shape and exactly as many elements as its ordinary
   * product, so `from_shape_vec(..).unwrap()` never fails; a rank-0 array
   * holds one element.
   */
  function GenArr<T>(rng: Rng, ndim: nat, elem: Rng -> (T, Rng)): (r: (ArrayD<T>, Rng))
    ensures |r.0.shape| == ndim
    ensures forall i :: 0 <= i < ndim ==> r.0.shape[i] < EXTENT_BOUND
    ensures |r.0.data| == Space.Product(r.0.shape)
    ensures ndim == 0 ==> |r.0.data| == 1 && Space.Size(Space.Extents(r.0.shape)) == 0
  {
    var (shape, r1) := GenShape(rng, ndim);
    var (v, r2) := GenVec(r1, Space.Product(shape), elem);
    (FromShapeVec(shape, v).value, r2)
  }

  // ---------------------------------------------------------------------------
  // The test types

  /** `FixedAscii<A>`: at most `capacity` bytes, all 7-bit. */
  datatype FixedAscii = FixedAscii(capacity: nat, bytes: seq<byte>) {
    predicate Valid() {
      |bytes| <= capacity && forall i :: 0 <= i < |bytes| ==> bytes[i] <= ASCII_MAX
    }
  }

  /** `FixedUnicode<A>`: at most `capacity` bytes of UTF-8, without `'\0'`. */
  datatype FixedUnicode = FixedUnicode(capacity: nat, text: string) {
    predicate Valid() {
      Utf8Len(text) <= capacity && '\0' !in text
    }
  }

  /** `VarLenAscii`: 7-bit bytes. */
  datatype VarLenAscii = VarLenAscii(bytes: seq<byte>) {
    predicate Valid() {
      forall i :: 0 <= i < |bytes| ==> bytes[i] <= ASCII_MAX
    }
  }

  /** `VarLenUnicode`: text without `'\0'`. */
  datatype VarLenUnicode = VarLenUnicode(text: string) {
    predicate Valid() {
      '\0' !in text
    }
  }

  /** `VarLenArray<T>`. */
  datatype VarLenArray<T> = VarLenArray(items: seq<T>)

  /** `Enum`, a `#[repr(i16)]` enumeration. */
  datatype Enum = X | Y {
    function Discriminant(): int {
      if X? then -2 else 3
    }
  }

  /** `TupleStruct(bool, Enum)`. */
  datatype TupleStruct = TupleStruct(flag: bool, e: Enum)

  /** `FixedStruct`; the tuple is `(i8, u64, f32)` and `tuples` is the field `array: [TupleStruct; 2]`. */
  datatype FixedStruct = FixedStruct(fa: FixedAscii, fu: FixedUnicode, tuple: (int, nat, real), tuples: seq<TupleStruct>) {
    predicate Valid() {
      fa.capacity == 3 && fa.Valid() &&
      fu.capacity == 11 && fu.Valid() &&
      -0x80 <= tuple.0 < 0x80 && tuple.1 < 0x1_0000_0000_0000_0000 && 0.0 <= tuple.2 < 1.0 &&
      |tuples| == 2
    }
  }

  /** `VarLenStruct`. */
  datatype VarLenStruct = VarLenStruct(va: VarLenAscii, vu: VarLenUnicode, vla: VarLenArray<Enum>) {
    predicate Valid() {
      va.Valid() && |va.bytes| <= VAR_LEN_MAX &&
      vu.Valid() && Utf8Len(vu.text) < VAR_LEN_MAX + 4 &&
      |vla.items| <= VAR_LEN_MAX
    }
  }

  // ---------------------------------------------------------------------------
  // The `Gen` implementations

  /** `FixedAscii::gen`: a length in `0..=capacity`, then that many bytes in `0..=127`. */
  method GenFixedAscii(rng: Rng, cap: nat) returns (v: FixedAscii, next: Rng)
    ensures v.capacity == cap && v.Valid()
    ensures |v.bytes| == UniformInclusive(rng, 0, cap).0
    ensures forall i :: 0 <= i < |v.bytes| ==> v.bytes[i] == UniformInclusive(rng.Advance(1 + i), 0, ASCII_MAX).0
    ensures next == rng.Advance(1 + |v.bytes|)
  {
    var (len, r) := UniformInclusive(rng, 0, cap);
    var bytes: seq<byte> := [];
    for i := 0 to len
      invariant |bytes| == i && r == rng.Advance(1 + i)
      invariant forall j :: 0 <= j < i ==> bytes[j] == UniformInclusive(rng.Advance(1 + j), 0, ASCII_MAX).0
    {
      var sample := UniformInclusive(r, 0, ASCII_MAX);
      bytes := bytes + [sample.0];
      r := sample.1;
    }
    v := FixedAscii(cap, bytes);
    next := r;
  }

  /**
   * How `FixedUnicode::gen` stops, for a drawn length `len`, the `n`
   * characters it drew from `rng` on and the text it kept: either it made
   * all `len` draws and kept every character other than `'\0'`, or its last
   * draw was a character that would have brought the byte length to `len`
   * or beyond and was dropped, every earlier character other than `'\0'`
   * being kept.
   */
  ghost predicate FilledUpTo(rng: Rng, len: nat, n: nat, text: string) {
    (n == len && text == Kept(rng, n)) ||
    (0 < n <= len && text == Kept(rng, n - 1) &&
     CharAt(rng, n - 1) != '\0' && Utf8Len(text) + Utf8Width(CharAt(rng, n - 1)) >= len)
  }

  /**
   * The state of `FixedUnicode::gen` after `i` character draws from
   * `start`: the text is what they kept, and it is empty or below `len` bytes.
   */
  ghost predicate KeptBelow(start: Rng, len: nat, i: nat, s: string) {
    s == Kept(start, i) && '\0' !in s && (s == [] || Utf8Len(s) < len)
  }

  /**
   * One more draw keeps `KeptBelow` unless it is a character that would
   * reach `len` bytes, where the loop has stopped as `FilledUpTo` says.
   */
  lemma KeptBelowStep(start: Rng, len: nat, i: nat, s: string)
    requires KeptBelow(start, len, i, s) && i < len
    ensures CharAt(start, i) == '\0' ==> KeptBelow(start, len, i + 1, s)
    ensures CharAt(start, i) != '\0' && Utf8Len(s) + Utf8Width(CharAt(start, i)) < len ==>
      KeptBelow(start, len, i + 1, s + [CharAt(start, i)])
    ensures CharAt(start, i) != '\0' && Utf8Len(s) + Utf8Width(CharAt(start, i)) >= len ==>
      FilledUpTo(start, len, i + 1, s)
  {
    var c := CharAt(start, i);
    if c != '\0' {
      Utf8LenPush(s, c);
    }
  }

  /**
   * `FixedUnicode::gen`: a length `len` in `0..=capacity`, then at most
   * `len` character draws; `'\0'` is skipped and the loop stops at the
   * first character that would bring the byte length to `len`, so the
   * result stays strictly below the drawn `len` (and is empty for a
   * capacity of at most 1).
   */
  method GenFixedUnicode(rng: Rng, cap: nat) returns (v: FixedUnicode, next: Rng)
    ensures v.capacity == cap && v.Valid()
    ensures next.draw == rng.draw
    ensures rng.pos + 1 <= next.pos <= rng.pos + 1 + UniformInclusive(rng, 0, cap).0
    ensures UniformInclusive(rng, 0, cap).0 == 0 ==> v.text == []
    ensures UniformInclusive(rng, 0, cap).0 > 0 ==> Utf8Len(v.text) < UniformInclusive(rng, 0, cap).0
    ensures cap <= 1 ==> v.text == []
    ensures FilledUpTo(rng.Advance(1), UniformInclusive(rng, 0, cap).0, next.pos - rng.pos - 1, v.text)
  {
    var (len, r) := UniformInclusive(rng, 0, cap);
    var s: string := "";
    ghost var start := r;
    ghost var n := 0;
    for i := 0 to len
      invariant n == i && r == start.Advance(i)
      invariant KeptBelow(start, len, i, s)
    {
      var (c, r1) := GenChar(r);
      assert c == CharAt(start, i);
      KeptBelowStep(start, len, i, s);
      r := r1;
      n := i + 1;
      if c != '\0' {
        if Utf8Len(s) + Utf8Width(c) >= len {
          break;
        }
        s := s + [c];
      }
    }
    assert FilledUpTo(start, len, n, s);
    assert start == rng.Advance(1) && n == r.pos - rng.pos - 1;
    v := FixedUnicode(cap, s);
    next := r;
  }

  /** `VarLenAscii::gen`: a length in `0..=8`, then that many bytes in `0..=127`. */
  method GenVarLenAscii(rng: Rng) returns (v: VarLenAscii, next: Rng)
    ensures v.Valid() && |v.bytes| <= VAR_LEN_MAX
    ensures |v.bytes| == UniformInclusive(rng, 0, VAR_LEN_MAX).0
    ensures forall i :: 0 <= i < |v.bytes| ==> v.bytes[i] == UniformInclusive(rng.Advance(1 + i), 0, ASCII_MAX).0
    ensures next == rng.Advance(1 + |v.bytes|)
  {
    var (len, r) := UniformInclusive(rng, 0, VAR_LEN_MAX);
    var bytes: seq<byte> := [];
    for i := 0 to len
      invariant |bytes| == i && r == rng.Advance(1 + i)
      invariant forall j :: 0 <= j < i ==> bytes[j] == UniformInclusive(rng.Advance(1 + j), 0, ASCII_MAX).0
    {
      var sample := UniformInclusive(r, 0, ASCII_MAX);
      bytes := bytes + [sample.0];
      r := sample.1;
    }
    v := VarLenAscii(bytes);
    next := r;
  }

  /** The UTF-8 bytes of the characters kept from the first `n` draws, counted draw by draw. */
  ghost function KeptBytes(rng: Rng, n: nat): nat {
    if n == 0 then 0
    else KeptBytes(rng, n - 1) + if CharAt(rng, n - 1) == '\0' then 0 else Utf8Width(CharAt(rng, n - 1))
  }

  /** Counting draw by draw gives the byte length of the kept text. */
  lemma {:induction false} KeptBytesIsLength(rng: Rng, n: nat)
    ensures KeptBytes(rng, n) == Utf8Len(Kept(rng, n))
  {
    if n > 0 {
      KeptBytesIsLength(rng, n - 1);
      if CharAt(rng, n - 1) != '\0' {
        Utf8LenPush(Kept(rng, n - 1), CharAt(rng, n - 1));
      } else {
        assert Kept(rng, n) == Kept(rng, n - 1);
      }
    }
  }

  /** The kept bytes never shrink as more draws are made. */
  lemma {:induction false} KeptBytesGrow(rng: Rng, n: nat, m: nat)
    requires n <= m
    ensures KeptBytes(rng, n) <= KeptBytes(rng, m)
    decreases m - n
  {
    if n < m {
      KeptBytesGrow(rng, n, m - 1);
    }
  }

  /**
   * `VarLenUnicode::gen` stops after `n` character draws from `start`: at
   * once when `len` is 0, otherwise at the first draw whose character brings
   * the kept text from below `len` bytes to `len` or more.
   */
  ghost predicate StoppedAt(start: Rng, len: nat, n: nat) {
    (len == 0 && n == 0) ||
    (0 < n && CharAt(start, n - 1) != '\0' && KeptBytes(start, n - 1) < len <= KeptBytes(start, n))
  }

  /** The loop stops at one draw count only. */
  lemma StopIsUnique(start: Rng, len: nat, n1: nat, n2: nat)
    requires StoppedAt(start, len, n1) && StoppedAt(start, len, n2)
    ensures n1 == n2
  {
    if n1 < n2 {
      KeptBytesGrow(start, n1, n2 - 1);
    } else if n2 < n1 {
      KeptBytesGrow(start, n2, n1 - 1);
    }
  }

  /**
   * The source loop ends exactly when some number of character draws,
   * after the one that picks `len`, keep at least `len` bytes.
   */
  ghost predicate VarLenEnds(rng: Rng) {
    exists b: nat :: UniformInclusive(rng, 0, VAR_LEN_MAX).0 <= KeptBytes(rng.Advance(1), b)
  }

  /** A number of character draws after which the loop has ended. */
  lemma EndBound(rng: Rng) returns (bound: nat)
    requires VarLenEnds(rng)
    ensures UniformInclusive(rng, 0, VAR_LEN_MAX).0 <= KeptBytes(rng.Advance(1), bound)
  {
    bound :| UniformInclusive(rng, 0, VAR_LEN_MAX).0 <= KeptBytes(rng.Advance(1), bound);
  }

  /** A stream that is never `'\0'` forever lets the loop end, whatever `len` is drawn. */
  lemma FairStreamEnds(rng: Rng)
    requires NulNotForever(rng.draw)
    ensures VarLenEnds(rng)
  {
    var len := UniformInclusive(rng, 0, VAR_LEN_MAX).0;
    var b := EnoughDraws(rng.Advance(1), len);
    KeptBytesIsLength(rng.Advance(1), b);
  }

  /** Before the last of `n` draws the kept text was still below `len` bytes, so the loop went on. */
  ghost predicate BelowBefore(start: Rng, len: nat, n: nat) {
    n == 0 || KeptBytes(start, n - 1) < len
  }

  /**
   * One more draw extends the kept text by the drawn character unless it
   * is `'\0'`, and the kept bytes by its width; a draw made while below
   * `len` bytes keeps `BelowBefore`.
   */
  lemma KeptStep(start: Rng, len: nat, n: nat)
    ensures CharAt(start, n) == '\0' ==>
      Kept(start, n + 1) == Kept(start, n) && KeptBytes(start, n + 1) == KeptBytes(start, n)
    ensures CharAt(start, n) != '\0' ==>
      Kept(start, n + 1) == Kept(start, n) + [CharAt(start, n)] &&
      KeptBytes(start, n + 1) == KeptBytes(start, n) + Utf8Width(CharAt(start, n))
    ensures KeptBytes(start, n) < len ==> BelowBefore(start, len, n + 1)
  {
    if CharAt(start, n) == '\0' {
      assert Kept(start, n + 1) == Kept(start, n) + [];
    }
  }

  /**
   * When the loop ends, having reached `len` bytes from below, the text and
   * the draws it took are what `VarLenUnicode::gen` returns: it stopped
   * where `StoppedAt` says, the text is what those draws kept, it is `len`
   * to `len + 3` bytes long, and without its last character below `len`.
   */
  lemma VarLenUnicodeEnds(rng: Rng, len: nat, n: nat, text: string, next: Rng)
    requires len == UniformInclusive(rng, 0, VAR_LEN_MAX).0
    requires next == rng.Advance(1 + n)
    requires text == Kept(rng.Advance(1), n) && len <= KeptBytes(rng.Advance(1), n)
    requires BelowBefore(rng.Advance(1), len, n)
    ensures '\0' !in text
    ensures StoppedAt(rng.Advance(1), UniformInclusive(rng, 0, VAR_LEN_MAX).0, next.pos - rng.pos - 1)
    ensures text == Kept(rng.Advance(1), next.pos - rng.pos - 1)
    ensures UniformInclusive(rng, 0, VAR_LEN_MAX).0 <= Utf8Len(text) < UniformInclusive(rng, 0, VAR_LEN_MAX).0 + 4
    ensures |text| > 0 ==> Utf8Len(text[..|text| - 1]) < UniformInclusive(rng, 0, VAR_LEN_MAX).0
  {
    var start := rng.Advance(1);
    assert next.pos - rng.pos - 1 == n;
    KeptBytesIsLength(start, n);
    if n > 0 {
      KeptBytesIsLength(start, n - 1);
      assert CharAt(start, n - 1) != '\0';
      assert Kept(start, n) == Kept(start, n - 1) + [CharAt(start, n - 1)];
      assert text[..|text| - 1] == Kept(start, n - 1);
    }
  }

  /**
   * `VarLenUnicode::gen`: a length `len` in `0..=8`, then characters other
   * than `'\0'` are pushed while the byte length is below `len`. There is no
   * cap: the result reaches `len` bytes and overshoots by at most 3, and
   * dropping its last character takes it back below `len`.
   */
  method GenVarLenUnicode(rng: Rng) returns (v: VarLenUnicode, next: Rng)
    requires VarLenEnds(rng)
    ensures v.Valid()
    ensures next.draw == rng.draw && rng.pos + 1 <= next.pos
    ensures StoppedAt(rng.Advance(1), UniformInclusive(rng, 0, VAR_LEN_MAX).0, next.pos - rng.pos - 1)
    ensures v.text == Kept(rng.Advance(1), next.pos - rng.pos - 1)
    ensures UniformInclusive(rng, 0, VAR_LEN_MAX).0 <= Utf8Len(v.text) < UniformInclusive(rng, 0, VAR_LEN_MAX).0 + 4
    ensures |v.text| > 0 ==> Utf8Len(v.text[..|v.text| - 1]) < UniformInclusive(rng, 0, VAR_LEN_MAX).0
  {
    var (len, r) := UniformInclusive(rng, 0, VAR_LEN_MAX);
    ghost var bound := EndBound(rng);
    ghost var n;
    var s;
    s, next, n := PushUntil(r, len, bound);
    v := VarLenUnicode(s);
    VarLenUnicodeEnds(rng, len, n, v.text, next);
  }

  /**
   * The loop of `VarLenUnicode::gen`: characters are drawn from `start` and
   * those other than `'\0'` pushed while the byte length is below `len`;
   * `bound` draws are known to be enough.
   */
  method PushUntil(start: Rng, len: nat, ghost bound: nat) returns (s: string, next: Rng, ghost n: nat)
    requires len <= KeptBytes(start, bound)
    ensures next == start.Advance(n)
    ensures s == Kept(start, n)
    ensures len <= KeptBytes(start, n)
    ensures BelowBefore(start, len, n)
  {
    s := "";
    next := start;
    n := 0;
    var bytes := 0;
    while bytes < len
      invariant next == start.Advance(n)
      invariant n <= bound
      invariant s == Kept(start, n) && bytes == KeptBytes(start, n)
      invariant BelowBefore(start, len, n)
      decreases bound - n
    {
      var (c, r1) := GenChar(next);
      assert c == CharAt(start, n);
      KeptStep(start, len, n);
      n := n + 1;
      next := r1;
      if c != '\0' {
        s := s + [c];
        bytes := bytes + Utf8Width(c);
      }
    }
  }

  /** `VarLenArray::gen`: a length in `0..=8`, then that many elements, as `gen_vec` would make them. */
  method GenVarLenArray<T>(rng: Rng, elem: Rng -> (T, Rng)) returns (v: VarLenArray<T>, next: Rng)
    ensures |v.items| <= VAR_LEN_MAX
    ensures |v.items| == UniformInclusive(rng, 0, VAR_LEN_MAX).0
    ensures (v.items, next) == GenVec(rng.Advance(1), |v.items|, elem)
  {
    var (len, r) := UniformInclusive(rng, 0, VAR_LEN_MAX);
    var items: seq<T> := [];
    for i := 0 to len
      invariant (items, r) == GenVec(rng.Advance(1), i, elem)
    {
      var (x, r1) := elem(r);
      items := items + [x];
      r := r1;
    }
    v := VarLenArray(items);
    next := r;
  }

  /** `Enum::gen`: one of the declared variants, chosen from the slice `[X, Y]`; `unwrap` cannot fail. */
  function GenEnum(rng: Rng): (r: (Enum, Rng))
    ensures r.1 == rng.Advance(1)
  {
    var (pick, r1) := Choose([X, Y], rng);
    (pick.value, r1)
  }

  /** `TupleStruct::gen`: the flag, then the enumeration. */
  function GenTupleStruct(rng: Rng): (r: (TupleStruct, Rng))
    ensures r.1 == rng.Advance(2)
  {
    var (flag, r1) := GenBool(rng);
    var (e, r2) := GenEnum(r1);
    (TupleStruct(flag, e), r2)
  }

  /** `FixedStruct::gen`: every field generated in declaration order. */
  method GenFixedStruct(rng: Rng) returns (v: FixedStruct, next: Rng)
    ensures v.Valid()
    ensures next.draw == rng.draw && rng.pos + 9 <= next.pos <= rng.pos + 23
  {
    var fa, r1 := GenFixedAscii(rng, 3);
    var fu, r2 := GenFixedUnicode(r1, 11);
    var (a, r3) := GenI8(r2);
    var (b, r4) := GenU64(r3);
    var (c, r5) := GenF32(r4);
    var (t0, r6) := GenTupleStruct(r5);
    var (t1, r7) := GenTupleStruct(r6);
    v := FixedStruct(fa, fu, (a, b, c), [t0, t1]);
    next := r7;
  }

  /** Generating `size` enumerations consumes exactly `size` draws. */
  lemma {:induction false} EnumsTakeOneDrawEach(rng: Rng, size: nat)
    ensures GenVec(rng, size, GenEnum).1 == rng.Advance(size)
  {
    if size > 0 {
      EnumsTakeOneDrawEach(rng, size - 1);
    }
  }

  /** Where `VarLenStruct::gen` starts its Unicode string: after the ASCII length and its bytes. */
  function UnicodeStart(rng: Rng): Rng {
    rng.Advance(1 + UniformInclusive(rng, 0, VAR_LEN_MAX).0)
  }

  /**
   * `VarLenStruct::gen`: the ASCII string, the Unicode string, then the
   * array of enumerations. The draws it consumes are the ASCII length and
   * bytes, the Unicode length and the `d` character draws after which that
   * loop stops, and the array length and one draw per enumeration.
   */
  method GenVarLenStruct(rng: Rng) returns (v: VarLenStruct, next: Rng)
    requires VarLenEnds(UnicodeStart(rng))
    ensures v.Valid()
    ensures next.draw == rng.draw
    ensures exists d: nat ::
      StoppedAt(UnicodeStart(rng).Advance(1), UniformInclusive(UnicodeStart(rng), 0, VAR_LEN_MAX).0, d) &&
      next.pos == UnicodeStart(rng).pos + 1 + d + 1 + |v.vla.items|
  {
    var va, r1 := GenVarLenAscii(rng);
    assert r1 == UnicodeStart(rng);
    var vu, r2 := GenVarLenUnicode(r1);
    ghost var d := r2.pos - r1.pos - 1;
    assert StoppedAt(UnicodeStart(rng).Advance(1), UniformInclusive(UnicodeStart(rng), 0, VAR_LEN_MAX).0, d);
    var vla, r3 := GenVarLenArray(r2, GenEnum);
    EnumsTakeOneDrawEach(r2.Advance(1), |vla.items|);
    assert r3.pos == UnicodeStart(rng).pos + 1 + d + 1 + |vla.items|;
    v := VarLenStruct(va, vu, vla);
    next := r3;
  }
}
