# Dimensions, dataspaces and test-value generators of hdf5-rust

This project models two pieces of the Rust HDF5 bindings and proves properties of them in Dafny.

**Shapes and dataspaces** (`space.dfy`, module `Space`, from `src/space.rs`).
- The `Dimension` capability is the datatype `Shape`. It has one variant per implementation: `()`, `Ix`, `(Ix,)`, `(Ix, Ix)`, `Vec<Ix>`, `&T` and a live `Dataspace`.
- `Ndim`, `Dims` and `Size` are the capability's three operations. `Size` is 0 for an empty extent list and otherwise the left-fold product.
- A dataspace's queries are best effort. A failed rank query reads as rank 0. A rank of 0 or a failed extent query gives no extents.
- `Dataspace::new` is split in two:
  - `ExtentBuffers` is its buffer-filling loop.
  - `NewDataspace` is the whole constructor: it creates the dataspace and then passes the new identifier through `from_id`.
- `Dataspace::dims` is the method `DataspaceDims`. It allocates an array that `GetSimpleExtentDims` fills in place.
- Every native call is a field of the `Runtime` value: dataspace creation, the identifier-kind query, handle acceptance, the rank query and the extent query. Each field is a function of the identifier or arguments asked about.

**Random test values** (`draws.dfy`, module `Draws`, and `gen.dfy`, module `Gen`, from `hdf5-rs/tests/common/gen.rs`).
- The random source is a value `Rng(draw, pos)`: an endless stream of raw draws and the position of the next one. Every generator takes it and returns the value together with the advanced source.
- Each sample consumes one draw and maps it into its range. A character draw maps onto the Unicode scalar values and skips the surrogates; every scalar value, `'\0'` included, can be drawn.
- The comprehension-style helpers are recursive functions: `gen_shape`, `gen_ascii`, `gen_vec` and `gen_arr`.
- The loop-based `Gen` implementations are methods with loop invariants. They are specified against `Kept`: the characters other than `'\0'` among the first `n` draws.

Two behaviours of the Unicode generators are easy to misread:
- **Fixed-capacity Unicode text** (`hdf5-rs/tests/common/gen.rs:74`). The generator stops at the first character that would bring the byte length to the *drawn* length `len` or beyond. It is not stopped by the declared capacity. So the text is empty when `len` is 0, and otherwise strictly shorter than `len` bytes. It is empty whenever the capacity is at most 1.
- **Variable-length Unicode text** (`hdf5-rs/tests/common/gen.rs:100`). There is no byte budget that stops the generator before it goes over. It pushes characters while the text is below `len` bytes, so it ends at `len` bytes or up to 3 bytes beyond.

## Model

| member | source | states |
|---|---|---|
| Space.Ndim | src/space.rs:26-51 | definition: `ndim()` of each implementation; `&T` forwards to `T`; a dataspace's failed rank query reads as 0 (src/space.rs:74-76) |
| Space.Dims | src/space.rs:27-52 | definition: `dims()` of each implementation, in order; `&T` forwards to `T`; a dataspace answers with `LiveDims` |
| Space.LiveDims | src/space.rs:78-89 | definition: `Dataspace::dims`, empty at rank 0 or when the extent query fails, otherwise the `ndim`-entry buffer the runtime filled |
| Space.Size | src/space.rs:19-22 | definition: `size()` is 0 for an empty extent list and otherwise the fold; its meaning is stated by `SizeIsZero` and `SizeByRank` |
| Space.Fold | src/space.rs:21 | definition: the left fold with multiplication as written; its value is stated by `FoldTimes` and `FoldIsZero` |
| Space.FoldTimes | src/space.rs:21 | the fold started at `acc` equals `acc` times the element-by-element product, by induction |
| Space.Product | src/space.rs:21 | `fold(1, ..)` equals the element-by-element product of the extents |
| Space.RankAgreesWithExtents | src/space.rs:30-53 | `ndim()` equals the number of extents `dims()` returns for every shape, except a dataspace (or a borrow of one) whose extent query failed at a positive rank, which reports a positive rank and no extents; both directions |
| Space.FoldIsZero | src/space.rs:21 | the multiplicative left fold is 0 exactly when the accumulator or some element is 0 |
| Space.SizeIsZero | src/space.rs:19-22 | `size()` is 0 exactly when there are no extents or one extent is 0 |
| Space.SizeByRank | src/space.rs:19-22 | by rank: `size()` is 0 at rank 0 (not the empty product 1); the element-by-element product of the extents at a positive rank; and 0 when a dataspace lost its extents at a positive rank |
| Space.BorrowedIsTransparent | src/space.rs:25-28 | `T` behind any number of `&` reports the same rank, extents (in order), size and lost-extents state as `T`, by induction on the depth |
| Space.DimensionExamples | src/space.rs:115-124 | the rank, extents and size of all ten shapes in the unit test, borrowed and owned |
| Space.LiveQueries | src/space.rs:73-89 | a failed rank query gives rank 0, no extents and size 0; extents are empty exactly when the rank is 0 or the extent query fails; otherwise they number exactly `ndim` and equal the runtime's answer when it has `ndim` entries |
| Space.GetSimpleExtentDims | src/space.rs:83-84 | the runtime fills the caller's buffer in place: on success its extents overwrite the leading entries and the rest are unchanged; on failure the buffer is untouched |
| Space.DataspaceDims | src/space.rs:78-89 | the allocate-and-fill procedure returns exactly the dataspace's extents as specified by `Dims`, either empty or `ndim` entries |
| Space.FromId | src/space.rs:97-102 | succeeds exactly when the runtime reports a dataspace identifier and the handle accepts it, wrapping that identifier; any other kind yields "invalid dataspace id" |
| Space.ExtentBuffers | src/space.rs:61-67 | the buffers have one entry per extent: `dims[i]` is the i-th extent and every `max_dims[i]` is `H5S_UNLIMITED` |
| Space.Created | src/space.rs:60-70 | the creation call with rank `ndim()`, extents `dims()` and all-unlimited maxima fails exactly when the result is `CallFailed`; the result is a success exactly when the call returns an identifier `from_id` accepts, and then it holds that identifier, which the runtime reports as a dataspace |
| Space.NewDataspace | src/space.rs:60-70 | the result is the creation call with rank `ndim()`, extents `dims()` and all-unlimited maxima, passed through `from_id`; a success holds a dataspace identifier that the creation call returned; the rank passed equals the buffer length exactly when the shape has not lost its extents, and otherwise a positive rank is passed with empty buffers |
| Space.CreatedReportsShape | src/space.rs:60-89 | round trip: on a runtime whose created dataspaces report back the rank and extents creation was given (`Echoes`), a successful `Dataspace::new(d)` for a shape that has not lost its extents has the rank, extents and size of `d` |
| Draws.UniformInclusive | hdf5-rs/tests/common/gen.rs:57 | a sample of `Uniform::new_inclusive(lo, hi)` lies in `lo..=hi` and consumes one draw |
| Draws.GenRange | hdf5-rs/tests/common/gen.rs:13 | a sample of `gen_range(lo, hi)` lies in `lo..hi` (upper bound excluded) and consumes one draw |
| Draws.SampleAlphanumeric | hdf5-rs/tests/common/gen.rs:17 | an `Alphanumeric` sample is an ASCII letter or digit and consumes one draw |
| Draws.GenChar | hdf5-rs/tests/common/gen.rs:72 | `gen::<char>()` consumes one draw; every scalar value can come out (`EveryScalarCanBeDrawn`) |
| Draws.GenBool | hdf5-rs/tests/common/gen.rs:24-38 | `gen::<bool>()` consumes one draw (used by `TupleStruct::gen`, gen.rs:140) |
| Draws.EveryScalarCanBeDrawn | hdf5-rs/tests/common/gen.rs:72 | every Unicode scalar value, `'\0'` included, is what some raw draw yields as a character |
| Draws.GenI8 | hdf5-rs/tests/common/gen.rs:24-38 | `gen::<i8>()` lies in `-128..128` and consumes one draw |
| Draws.GenU64 | hdf5-rs/tests/common/gen.rs:24-38 | `gen::<u64>()` lies below 2^64 and consumes one draw |
| Draws.GenF32 | hdf5-rs/tests/common/gen.rs:24-38 | `gen::<f32>()` lies in [0, 1) and consumes one draw |
| Draws.Choose | hdf5-rs/tests/common/gen.rs:130 | `choose` yields `None` exactly for an empty slice and leaves the source alone; otherwise it yields an element of the slice and consumes one draw |
| Gen.Utf8Width | hdf5-rs/tests/common/gen.rs:74 | `len_utf8` is 1 to 4 bytes, and 1 exactly for 7-bit characters |
| Gen.Utf8Len | hdf5-rs/tests/common/gen.rs:74 | a string's UTF-8 length lies between its character count and four times it |
| Gen.Utf8LenPush | hdf5-rs/tests/common/gen.rs:77 | pushing a character adds exactly its `len_utf8` to the byte length |
| Gen.Kept | hdf5-rs/tests/common/gen.rs:70-79 | the characters kept from `n` draws are at most `n` |
| Gen.KeptGrows | hdf5-rs/tests/common/gen.rs:100-105 | more draws never keep fewer characters |
| Gen.EnoughDraws | hdf5-rs/tests/common/gen.rs:100-105 | on a stream that is never `'\0'` forever, finitely many draws keep any requested number of characters (why the `while` loop ends) |
| Gen.GenShape | hdf5-rs/tests/common/gen.rs:12-14 | exactly `ndim` extents, each in `0..=10`, consuming `ndim` draws |
| Gen.GenAscii | hdf5-rs/tests/common/gen.rs:16-18 | exactly `len` alphanumeric characters, consuming `len` draws |
| Gen.GenVec | hdf5-rs/tests/common/gen.rs:40-42 | exactly `size` elements |
| Gen.FromShapeVec | hdf5-rs/tests/common/gen.rs:52 | `from_shape_vec` succeeds exactly when the element count is the element-by-element product of the shape, and then keeps the shape and the elements |
| Gen.GenArr | hdf5-rs/tests/common/gen.rs:44-53 | a shape of `ndim` extents in `0..=10` and exactly as many elements as their ordinary product, so `from_shape_vec(..).unwrap()` cannot fail; at rank 0 that is one element, although `Dimension::size` of the empty shape is 0 |
| Gen.GenFixedAscii | hdf5-rs/tests/common/gen.rs:55-65 | the length is the drawn `len` in `0..=capacity`; byte `i` is the sample of draw `1+i` in `0..=127`; exactly `1+len` draws |
| Gen.KeptBelowStep | hdf5-rs/tests/common/gen.rs:70-79 | one more draw keeps the loop state (kept text, no `'\0'`, empty or below `len` bytes) unless it is a character that would reach `len` bytes, in which case the stopping state `FilledUpTo` holds |
| Gen.GenFixedUnicode | hdf5-rs/tests/common/gen.rs:67-82 | no `'\0'`; at most `capacity` bytes; empty when `len` is 0 and otherwise strictly below `len` bytes; empty for capacity at most 1; between 1 and `1+len` draws; the text is every non-`'\0'` character drawn, ending either after `len` draws or at a dropped character that would have reached `len` bytes |
| Gen.GenVarLenAscii | hdf5-rs/tests/common/gen.rs:84-94 | the length is the drawn `len` in `0..=8`; byte `i` is the sample of draw `1+i` in `0..=127`; exactly `1+len` draws |
| Gen.KeptBytesIsLength | hdf5-rs/tests/common/gen.rs:100-104 | counting `len_utf8` of each kept character draw by draw gives `s.len()` of the kept text |
| Gen.KeptBytesGrow | hdf5-rs/tests/common/gen.rs:100-104 | more draws never keep fewer bytes |
| Gen.StopIsUnique | hdf5-rs/tests/common/gen.rs:100-104 | the `while s.len() < len` loop has at most one stopping point: a draw count whose last draw was kept, with fewer than `len` bytes kept before it and at least `len` after it |
| Gen.EndBound | hdf5-rs/tests/common/gen.rs:100-104 | on a stream where the loop ends, some number of character draws keeps at least `len` bytes (the bound the loop's termination is measured against) |
| Gen.FairStreamEnds | hdf5-rs/tests/common/gen.rs:100-104 | on a stream that is never `'\0'` forever, the loop ends |
| Gen.KeptStep | hdf5-rs/tests/common/gen.rs:101-104 | one character draw: a `'\0'` leaves the kept text and its byte count alone; any other character is pushed and adds its `len_utf8`; if fewer than `len` bytes were kept before the draw, the loop had not stopped before it |
| Gen.VarLenUnicodeEnds | hdf5-rs/tests/common/gen.rs:98-107 | when the loop exits after `n` character draws, `n` is its stopping point, the text is what those draws kept, it has from `len` to `len + 3` bytes, and dropping its last character takes it below `len` |
| Gen.PushUntil | hdf5-rs/tests/common/gen.rs:99-105 | the loop itself: after `n` character draws it returns the text those draws kept and the source advanced by `n`; the text has at least `len` bytes and had fewer before the last draw |
| Gen.GenVarLenUnicode | hdf5-rs/tests/common/gen.rs:96-108 | requires exactly the streams on which the loop ends (`VarLenEnds`); no `'\0'`; it consumes the length draw and then exactly the character draws at which the loop stops (`StoppedAt`, unique by `StopIsUnique`): none when `len` is 0, otherwise ending with a kept character; the text is every non-`'\0'` character drawn; its byte length is at least `len` and below `len + 4`; without its last character it is below `len` |
| Gen.GenVarLenArray | hdf5-rs/tests/common/gen.rs:110-119 | the length is the drawn `len` in `0..=8`, and the items and the final source are what `gen_vec` makes from the next draw |
| Gen.GenEnum | hdf5-rs/tests/common/gen.rs:128-132 | one of the declared variants, consuming one draw (the `unwrap` cannot fail) |
| Gen.GenTupleStruct | hdf5-rs/tests/common/gen.rs:138-142 | the flag, then the enumeration: two draws |
| Gen.GenFixedStruct | hdf5-rs/tests/common/gen.rs:153-162 | every field is well formed: ASCII of capacity 3, Unicode of capacity 11 within its budget, the tuple in the ranges of `i8`, `u64` and `[0, 1)`, and two tuple structs; between 9 and 23 draws |
| Gen.EnumsTakeOneDrawEach | hdf5-rs/tests/common/gen.rs:110-119 | generating `size` enumerations with `gen_vec` consumes exactly `size` draws, one per `choose` |
| Gen.GenVarLenStruct | hdf5-rs/tests/common/gen.rs:172-176 | every field is well formed: ASCII of at most 8 bytes in `0..=127`, Unicode without `'\0'` below 12 bytes, and at most 8 enumerations; the draws consumed are exactly the ASCII length and bytes, the Unicode length and the `d` character draws at which that loop stops, and the array length and one per enumeration |

## Left out

- Handles: their reference counting and release are not modelled. A `Handle` is only the identifier it owns, and `Handle::new` is the runtime's `handleAccepts` answer.
- Runtime queries: the runtime's answers are a snapshot per identifier. A runtime whose answers change between two queries of the same dataspace is not modelled.
- `h5try!` and `h5call!`: their error-stack handling is not modelled. A failed call is `None` from the runtime and `CallFailed`.
- Integer casts: `rank as c_int`, `*dim as hsize_t` and `x as usize` are identities on extents that fit both types, and `usize` overflow in the `size()` and `gen_arr` products is not modelled. All of these are `nat`.
- Uninitialised buffer entries: `Dataspace::dims` reserves `ndim` entries and the runtime fills them in place. Entries the runtime does not write, as when it reports fewer extents than the rank, are uninitialised memory in the source and 0 in the model (`Space.LiveQueries`, `Space.DataspaceDims`).
- Space.GetSimpleExtentDims: a runtime that reports more extents than the rank writes past the end of the `ndim`-entry buffer in the source (src/space.rs:81-84). The model writes only the entries that fit and drops the rest, so that out-of-bounds write is not modelled.
- Space.NewDataspace: for a shape that lost its extents (a borrowed dataspace whose extent query failed after its rank query succeeded), the source passes a positive rank with empty `dims` and `max_dims` buffers to `H5Screate_simple`, which reads `rank` entries from each. The model hands these arguments to the runtime's `createSimple` answer as they are, so the out-of-bounds read is not modelled.
- The `rand` distributions: not modelled. Each sample is one raw draw mapped into the distribution's range, so uniformity, rejection sampling and multi-draw sampling are not captured.
- Draws.GenF32: `gen::<f32>()` is a real multiple of 2^-24 in [0, 1), not an IEEE float.
- The `impl_gen_primitive!` macro: only the types the structs use are modelled (`bool`, `i8`, `u64`, `f32`), as the distribution functions above.
- ndarray: `ArrayD::from_shape_vec` is only its element-count check.
- `H5Type` derives and the `unsafe` `*_unchecked` constructors: not modelled; the constructors are plain datatype constructors.
- Runtime round trip: writing and reading generated values through the runtime is not modelled.
- Non-termination: on a stream whose characters never add up to `len` bytes, the loop of `VarLenUnicode::gen` runs forever. The model's methods end, so `Gen.GenVarLenUnicode` and `Gen.GenVarLenStruct` require the streams on which it ends (`VarLenEnds`); a stream that is not `'\0'` forever is one (`FairStreamEnds`).
- Gen.GenEnum: states nothing about the discriminant beyond the variant. The variants `X` and `Y` carry -2 and 3 by construction, so only declared discriminants can occur.
