/**
 * The random source the generators draw from, and the distributions they
 * sample. The source is an endless stream of raw draws; each sample reads
 * one raw draw and maps it into the distribution's range.
 */
module Draws {
  import opened Wrappers

  /** A random source (`&mut R` with `R: Rng`): the draws and the position of the next one. */
  datatype Rng = Rng(draw: nat -> nat, pos: nat) {

    /** The next raw draw. */
    function Next(): nat {
      draw(pos)
    }

    /** The source after `n` more draws. */
    function Advance(n: nat): Rng {
      Rng(draw, pos + n)
    }
  }

  /** `Uniform::new_inclusive(lo, hi)` sampled once. */
  function UniformInclusive(rng: Rng, lo: int, hi: int): (r: (int, Rng))
    requires lo <= hi
    ensures lo <= r.0 <= hi
    ensures r.1 == rng.Advance(1)
  {
    (lo + rng.Next() % (hi - lo + 1), rng.Advance(1))
  }

  /** `gen_range(lo, hi)`: the upper bound is excluded. */
  function GenRange(rng: Rng, lo: int, hi: int): (r: (int, Rng))
    requires lo < hi
    ensures lo <= r.0 < hi
    ensures r.1 == rng.Advance(1)
  {
    (lo + rng.Next() % (hi - lo), rng.Advance(1))
  }

  predicate IsAlphanumeric(c: char) {
    'A' <= c <= 'Z' || 'a' <= c <= 'z' || '0' <= c <= '9'
  }

  /** Entry `k` of the alphabet `A..Z a..z 0..9` that `Alphanumeric` draws from. */
  function AlphanumericAt(k: nat): (c: char)
    requires k < 62
    ensures IsAlphanumeric(c)
  {
    if k < 26 then ('A' as int + k) as char
    else if k < 52 then ('a' as int + (k - 26)) as char
    else ('0' as int + (k - 52)) as char
  }

  /** `sample(Alphanumeric)`. */
  function SampleAlphanumeric(rng: Rng): (r: (char, Rng))
    ensures IsAlphanumeric(r.0)
    ensures r.1 == rng.Advance(1)
  {
    (AlphanumericAt(rng.Next() % 62), rng.Advance(1))
  }

  /** The number of Unicode scalar values: every code point below 0x110000 but the 0x800 surrogates. */
  const SCALAR_COUNT: nat := 0x10F800

  /** The Unicode scalar value a raw draw stands for: code points skip the surrogate range. */
  function ScalarOf(raw: nat): char {
    var x := raw % SCALAR_COUNT;
    if x < 0xD800 then x as char else (x + 0x800) as char
  }

  /** A raw draw that yields the scalar value `c`. */
  function RawOf(c: char): nat {
    if (c as int) < 0xD800 then c as int else c as int - 0x800
  }

  /** Every scalar value, `'\0'` included, can be drawn by `gen::<char>()`. */
  lemma EveryScalarCanBeDrawn(c: char)
    ensures ScalarOf(RawOf(c)) == c
  {
  }

  /** `gen::<char>()`. */
  function GenChar(rng: Rng): (r: (char, Rng))
    ensures r.1 == rng.Advance(1)
  {
    (ScalarOf(rng.Next()), rng.Advance(1))
  }

  /** `gen::<bool>()`. */
  function GenBool(rng: Rng): (r: (bool, Rng))
    ensures r.1 == rng.Advance(1)
  {
    (rng.Next() % 2 == 1, rng.Advance(1))
  }

  /** `gen::<i8>()`. */
  function GenI8(rng: Rng): (r: (int, Rng))
    ensures -0x80 <= r.0 < 0x80
    ensures r.1 == rng.Advance(1)
  {
    (rng.Next() % 0x100 - 0x80, rng.Advance(1))
  }

  /** `gen::<u64>()`. */
  function GenU64(rng: Rng): (r: (nat, Rng))
    ensures r.0 < 0x1_0000_0000_0000_0000
    ensures r.1 == rng.Advance(1)
  {
    (rng.Next() % 0x1_0000_0000_0000_0000, rng.Advance(1))
  }

  /** `gen::<f32>()`: a multiple of 2^-24 in [0, 1). */
  function GenF32(rng: Rng): (r: (real, Rng))
    ensures 0.0 <= r.0 < 1.0
    ensures r.1 == rng.Advance(1)
  {
    ((rng.Next() % 0x100_0000) as real / 0x100_0000 as real, rng.Advance(1))
  }

  /** `choose` on a slice: `None` for an empty slice, otherwise one of its elements. */
  function Choose<T>(items: seq<T>, rng: Rng): (r: (Option<T>, Rng))
    ensures r.0.Some? <==> |items| > 0
    ensures r.0.Some? ==> r.0.value in items && r.1 == rng.Advance(1)
    ensures r.0.None? ==> r.1 == rng
  {
    if |items| == 0 then (None, rng)
    else (Some(items[rng.Next() % |items|]), rng.Advance(1))
  }
}
