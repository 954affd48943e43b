/**
 * The seeded pseudo-random generator of the forest: a string seed is hashed
 * with 32-bit FNV-1a over its UTF-16 code units, and the hash seeds a
 * mulberry32 generator whose draws are normalised to [0, 1).
 *
 * A generator is a value (`Rng`); every draw returns the advanced generator
 * together with the number drawn, so callers thread the state explicitly.
 */
module SeededRng {

  import Numeric

  const TwoTo32: int := 0x1_0000_0000

  /** A UTF-16 code unit, what JavaScript's `charCodeAt` returns. */
  newtype CodeUnit = x: int | 0 <= x < 0x10000

  // ---------------------------------------------------------------------
  // hashToSeed
  // ---------------------------------------------------------------------

  /** The UTF-16 code units of one Unicode scalar value (a surrogate pair above U+FFFF). */
  function Utf16Char(c: char): (units: seq<CodeUnit>)
    ensures 1 <= |units| <= 2
    ensures |units| == 1 <==> c as int < 0x10000
    // below U+10000 the code unit is the character itself, never a surrogate
    ensures |units| == 1 ==> units[0] as int == c as int && !IsSurrogate(units[0])
    // above it, a high then a low surrogate carrying the upper and lower ten bits
    ensures |units| == 2 ==>
      && IsHighSurrogate(units[0]) && IsLowSurrogate(units[1])
      && c as int == 0x10000 + (units[0] as int - 0xD800) * 0x400 + (units[1] as int - 0xDC00)
  {
    var v := c as int;
    if v < 0x10000 then [ToUnit(v)]
    else
      var w := v - 0x10000;
      var hi, lo := w / 0x400, w % 0x400;
      assert w == hi * 0x400 + lo && 0 <= hi < 0x400;
      [ToUnit(0xD800 + hi), ToUnit(0xDC00 + lo)]
  }

  /** The code unit with the given value. */
  function ToUnit(v: int): (u: CodeUnit)
    requires 0 <= v < 0x10000
    ensures u as int == v
  {
    v as CodeUnit
  }

  predicate IsHighSurrogate(u: CodeUnit) { 0xD800 <= u as int < 0xDC00 }
  predicate IsLowSurrogate(u: CodeUnit) { 0xDC00 <= u as int < 0xE000 }
  predicate IsSurrogate(u: CodeUnit) { 0xD800 <= u as int < 0xE000 }

  /** The UTF-16 code units of a string, JavaScript's view of it. */
  function Utf16(s: string): (units: seq<CodeUnit>)
    ensures |s| <= |units| <= 2 * |s|
    ensures FromUtf16(units) == s
  {
    if |s| == 0 then []
    else
      var head := Utf16Char(s[0]);
      DecodeHead(head, Utf16(s[1..]));
      head + Utf16(s[1..])
  }

  /**
   * Decoding UTF-16, the independent reading of the code units: a high
   * surrogate followed by a low one is one character above U+FFFF, any
   * other non-surrogate unit is itself, and a lone surrogate (which no
   * Unicode string produces) becomes U+FFFD.
   */
  function FromUtf16(units: seq<CodeUnit>): string
    decreases |units|
  {
    if |units| == 0 then []
    else if |units| >= 2 && IsHighSurrogate(units[0]) && IsLowSurrogate(units[1]) then
      [(0x10000 + (units[0] as int - 0xD800) * 0x400 + (units[1] as int - 0xDC00)) as char] + FromUtf16(units[2..])
    else if IsSurrogate(units[0]) then ['\U{FFFD}'] + FromUtf16(units[1..])
    else [units[0] as int as char] + FromUtf16(units[1..])
  }

  /** Decoding the units of one character in front of more units reads that character first. */
  lemma DecodeHead(head: seq<CodeUnit>, rest: seq<CodeUnit>)
    requires exists c: char :: head == Utf16Char(c)
    ensures FromUtf16(head + rest) == FromUtf16(head) + FromUtf16(rest)
    ensures |FromUtf16(head)| == 1 && head == Utf16Char(FromUtf16(head)[0])
  {
    var c: char :| head == Utf16Char(c);
    var all := head + rest;
    if |head| == 1 {
      assert all[1..] == rest;
      assert FromUtf16(head) == [c];
    } else {
      assert all[2..] == rest;
      assert head[2..] == [];
      assert FromUtf16(head) == [c];
    }
  }

  // ---------------------------------------------------------------------
  // 32-bit words
  // ---------------------------------------------------------------------

  /**
   * An unsigned 32-bit integer, what JavaScript's `x >>> 0` yields. The
   * source's bitwise operators all act on such words (read modulo 2^32).
   */
  newtype u32 = x: int | 0 <= x < 0x1_0000_0000

  function Pow2(k: nat): (r: nat)
    ensures r >= 1
  {
    if k == 0 then 1 else 2 * Pow2(k - 1)
  }

  lemma Pow2Word()
    ensures Pow2(32) == TwoTo32
  {
    assert Pow2(8) == 256;
    Pow2Add(8, 8);
    assert Pow2(16) == 0x1_0000;
    Pow2Add(16, 16);
  }

  lemma {:induction false} Pow2Add(a: nat, b: nat)
    ensures Pow2(a + b) == Pow2(a) * Pow2(b)
  {
    if b > 0 {
      Pow2Add(a, b - 1);
    }
  }

  /** Bitwise xor of two naturals, least significant bit first. */
  function XorBits(a: nat, b: nat): nat
    decreases a + b
  {
    if a == 0 && b == 0 then 0
    else (if a % 2 != b % 2 then 1 else 0) + 2 * XorBits(a / 2, b / 2)
  }

  /** Bitwise or of two naturals. */
  function OrBits(a: nat, b: nat): nat
    decreases a + b
  {
    if a == 0 && b == 0 then 0
    else (if a % 2 == 1 || b % 2 == 1 then 1 else 0) + 2 * OrBits(a / 2, b / 2)
  }

  /** Neither operation sets a bit above the highest bit of its operands. */
  lemma {:induction false} BitsBound(a: nat, b: nat, k: nat)
    requires a < Pow2(k) && b < Pow2(k)
    ensures XorBits(a, b) < Pow2(k) && OrBits(a, b) < Pow2(k)
    decreases k
  {
    if k > 0 && !(a == 0 && b == 0) {
      BitsBound(a / 2, b / 2, k - 1);
    }
  }

  /** `a ^ b`. */
  function Xor(a: u32, b: u32): u32 {
    Pow2Word();
    BitsBound(a as nat, b as nat, 32);
    XorBits(a as nat, b as nat) as u32
  }

  /** `a | b`. */
  function Or(a: u32, b: u32): u32 {
    Pow2Word();
    BitsBound(a as nat, b as nat, 32);
    OrBits(a as nat, b as nat) as u32
  }

  /** `a >>> k`: the low `k` bits dropped. */
  function Shr(a: u32, k: nat): u32 {
    var d := Pow2(k);
    DivFits(a, d);
    (a as int / d) as u32
  }

  lemma DivFits(a: u32, d: nat)
    requires d >= 1
    ensures 0 <= a as int / d <= a as int
  {
  }

  /** `a + b`, read back as a word. */
  function Add32(a: u32, b: u32): u32 {
    ((a as int + b as int) % TwoTo32) as u32
  }

  /**
   * JavaScript's `Math.imul`, computed bit by bit: the shifted copies of `a`
   * selected by the bits of `b`, summed modulo 2^32.
   */
  function Imul(a: u32, b: u32): u32 {
    (MulLow(a as nat, b as nat) % TwoTo32) as u32
  }

  /** Shift-and-add multiplication over the bits of `b`. */
  function MulLow(a: nat, b: nat): nat
    decreases b
  {
    if b == 0 then 0
    else (if b % 2 == 1 then a else 0) + 2 * MulLow(a, b / 2)
  }

  /** Shift-and-add is multiplication. */
  lemma {:induction false} MulLowIsProduct(a: nat, b: nat)
    ensures MulLow(a, b) == a * b
    decreases b
  {
    if b > 0 {
      var q, r := b / 2, b % 2;
      MulLowIsProduct(a, q);
      Distribute(a, q, r);
    }
  }

  lemma Distribute(a: nat, q: nat, r: nat)
    ensures a * (2 * q + r) == 2 * (a * q) + a * r
  {
  }

  /** `Imul` is the product of its operands modulo 2^32. */
  lemma ImulIsProduct(a: u32, b: u32)
    ensures Imul(a, b) as int == (a as int * b as int) % TwoTo32
  {
    MulLowIsProduct(a as nat, b as nat);
  }

  const FnvOffset: u32 := 2166136261
  const FnvPrime: u32 := 16777619

  /** One FNV-1a round: xor the code unit in, then multiply by the prime modulo 2^32. */
  function FnvStep(h: u32, c: CodeUnit): u32 {
    Imul(Xor(h, c as int as u32), FnvPrime)
  }

  /** FNV-1a as a left fold over the code units, starting from the offset basis. */
  function Fnv1a(units: seq<CodeUnit>): u32
    decreases |units|
  {
    if |units| == 0 then FnvOffset
    else FnvStep(Fnv1a(units[..|units| - 1]), units[|units| - 1])
  }

  /** The 32-bit seed of a string seed. A numeric seed is hashed as its decimal text. */
  function HashToSeed(s: string): u32 {
    Fnv1a(Utf16(s))
  }

  /** The hash of the empty string is the offset basis; hashing never fails. */
  lemma HashOfEmpty()
    ensures HashToSeed("") as int == 2166136261
  {
  }

  /** Hashing a concatenation continues the fold where the prefix left off. */
  lemma {:induction false} FnvAppend(a: seq<CodeUnit>, c: CodeUnit)
    ensures Fnv1a(a + [c]) == FnvStep(Fnv1a(a), c)
  {
    assert (a + [c])[..|a + [c]| - 1] == a;
  }

  /**
   * The loop of the source, xoring each code unit into the accumulator and
   * multiplying, computes the fold above.
   */
  method HashToSeedLoop(s: string) returns (h: u32)
    ensures h == HashToSeed(s)
  {
    var units := Utf16(s);
    var acc: u32 := FnvOffset;
    var i := 0;
    while i < |units|
      invariant 0 <= i <= |units|
      invariant acc == Fnv1a(units[..i])
    {
      assert units[..i + 1][..i] == units[..i];
      acc := FnvStep(acc, units[i]);
      i := i + 1;
    }
    assert units[..|units|] == units;
    h := acc;
  }

  // ---------------------------------------------------------------------
  // mulberry32
  // ---------------------------------------------------------------------

  /** The constant added to the counter before every draw. */
  const Increment: int := 0x6d2b79f5

  /** A mulberry32 generator: its 32-bit counter. */
  datatype Rng = Rng(t: u32)

  /** `t = seed >>> 0`. */
  function Mulberry32(seed: u32): Rng {
    Rng(seed)
  }

  function RngFromSeed(s: string): Rng {
    Mulberry32(HashToSeed(s))
  }

  /** The mixing of the advanced counter into the 32-bit output word. */
  function Mix(t: u32): u32 {
    var x := Imul(Xor(t, Shr(t, 15)), Or(1, t));
    var x' := Xor(x, Add32(x, Imul(Xor(x, Shr(x, 7)), Or(61, x))));
    Xor(x', Shr(x', 14))
  }

  /** A 32-bit word normalised to [0, 1): the word, read unsigned, divided by 2^32. */
  function Unit(u: u32): (r: real)
    ensures 0.0 <= r < 1.0
    ensures r * 4294967296.0 == (u as int) as real
  {
    (u as int) as real / 4294967296.0
  }

  /**
   * One draw: advance the counter by the increment modulo 2^32, then emit
   * the normalised mix of the NEW counter.
   */
  function Next(g: Rng): (r: (Rng, real))
    ensures r.0 == Step(g)
    ensures r.1 == Output(Step(g))
    ensures 0.0 <= r.1 < 1.0
  {
    var g' := Step(g);
    (g', Output(g'))
  }

  /** The counter update of one draw: `t += 0x6D2B79F5`, modulo 2^32. */
  function Step(g: Rng): (g': Rng)
    ensures g'.t as int == (g.t as int + Increment) % TwoTo32
  {
    Rng(((g.t as int + Increment) % TwoTo32) as u32)
  }

  /** The draw emitted by a generator whose counter has just been advanced. */
  function Output(g: Rng): (r: real)
    ensures 0.0 <= r < 1.0
  {
    Unit(Mix(g.t))
  }

  /** The draw is a function of the advanced counter alone. */
  lemma DrawDependsOnlyOnNewState(g1: Rng, g2: Rng)
    requires Next(g1).0 == Next(g2).0
    ensures Next(g1).1 == Next(g2).1
  {
  }

  /** The generator after `n` draws. */
  function Advance(g: Rng, n: nat): Rng
  {
    if n == 0 then g else Step(Advance(g, n - 1))
  }

  /** The value of draw number `n` (counting from 0). */
  function DrawAt(g: Rng, n: nat): (r: real)
    ensures 0.0 <= r < 1.0
  {
    Output(Step(Advance(g, n)))
  }

  /** The counters the first `n` draws are mixed from: each one step past the last. */
  function Counters(g: Rng, n: nat): (cs: seq<Rng>)
    ensures |cs| == n
    decreases n
  {
    if n == 0 then [] else [Step(g)] + Counters(Step(g), n - 1)
  }

  /** `f` applied to every element of `s`, in order. */
  function MapSeq<T, U>(f: T -> U, s: seq<T>): (r: seq<U>)
    ensures |r| == |s|
    ensures forall k :: 0 <= k < |s| ==> r[k] == f(s[k])
  {
    seq(|s|, k requires 0 <= k < |s| => f(s[k]))
  }

  lemma MapSeqConcat<T, U>(f: T -> U, a: seq<T>, b: seq<T>)
    ensures MapSeq(f, a + b) == MapSeq(f, a) + MapSeq(f, b)
  {
    assert forall k :: 0 <= k < |b| ==> (a + b)[|a| + k] == b[k];
  }

  /** The first `n` draws, in order: the outputs of the first `n` advanced counters. */
  function Draws(g: Rng, n: nat): (ds: seq<real>)
    ensures |ds| == n
    ensures forall k :: 0 <= k < n ==> 0.0 <= ds[k] < 1.0
  {
    MapSeq(Output, Counters(g, n))
  }

  /** Counter `k` of the first `n` is the one draw `k` is mixed from. */
  lemma {:induction false} CountersAt(g: Rng, n: nat, k: nat)
    requires k < n
    ensures Counters(g, n)[k] == Step(Advance(g, k))
    decreases k
  {
    if k > 0 {
      CountersAt(Step(g), n - 1, k - 1);
      AdvanceAdd(g, 1, k - 1);
    }
  }

  /** Entry `k` of the first `n` draws is draw number `k`. */
  lemma DrawsAt(g: Rng, n: nat, k: nat)
    requires k < n
    ensures Draws(g, n)[k] == DrawAt(g, k)
  {
    CountersAt(g, n, k);
  }

  /** After `n` draws the counter has moved by `n` increments, modulo 2^32. */
  lemma {:induction false} AdvanceCounter(g: Rng, n: nat)
    ensures Advance(g, n).t as int == (g.t as int + n * Increment) % TwoTo32
  {
    if n > 0 {
      AdvanceCounter(g, n - 1);
      ModAdd(g.t as int + (n - 1) * Increment, Increment);
    }
  }

  lemma ModAdd(a: int, b: int)
    ensures (a % TwoTo32 + b) % TwoTo32 == (a + b) % TwoTo32
  {
    var q := a / TwoTo32;
    assert a == q * TwoTo32 + a % TwoTo32;
  }

  /**
   * The draws of a generator, in order, as a function of their index. The
   * components that consume draws read nothing else of the generator.
   */
  type Stream = nat -> real

  ghost predicate UnitStream(s: Stream) {
    forall n: nat :: 0.0 <= s(n) < 1.0
  }

  /** The draw stream of a generator. */
  function DrawStream(g: Rng): (s: Stream)
    ensures UnitStream(s)
    ensures forall n: nat :: s(n) == DrawAt(g, n)
  {
    (n: nat) => DrawAt(g, n)
  }

  /** Draws compose: `a` draws followed by `b` draws are `a + b` draws. */
  lemma {:induction false} AdvanceAdd(g: Rng, a: nat, b: nat)
    ensures Advance(Advance(g, a), b) == Advance(g, a + b)
  {
    if b > 0 {
      AdvanceAdd(g, a, b - 1);
    }
  }

  /** Draw `n` of a generator advanced by `a` draws is draw `a + n` of the original. */
  lemma DrawAtShift(g: Rng, a: nat, n: nat)
    ensures DrawAt(Advance(g, a), n) == DrawAt(g, a + n)
  {
    AdvanceAdd(g, a, n);
  }

  /** The counter sequence splits at any point. */
  lemma {:induction false} CountersSplit(g: Rng, m: nat, n: nat)
    ensures Counters(g, m + n) == Counters(g, m) + Counters(Advance(g, m), n)
    decreases m
  {
    if m > 0 {
      var h, m' := Step(g), m - 1;
      CountersSplit(h, m', n);
      AdvanceAdd(g, 1, m');
      assert Advance(h, m') == Advance(g, m);
      assert Counters(g, m) == [h] + Counters(h, m');
      assert Counters(g, m + n) == [h] + Counters(h, m' + n);
    } else {
      assert Counters(g, m) == [] && Advance(g, m) == g;
    }
  }

  /** The draw sequence of a generator splits at any point. */
  lemma DrawsSplit(g: Rng, m: nat, n: nat)
    ensures Draws(g, m + n) == Draws(g, m) + Draws(Advance(g, m), n)
  {
    CountersSplit(g, m, n);
    MapSeqConcat(Output, Counters(g, m), Counters(Advance(g, m), n));
  }

  /**
   * Seeds whose hashes coincide (in particular, equal seeds) give the same
   * draw sequence.
   */
  lemma SameHashSameDraws(a: string, b: string, n: nat)
    requires HashToSeed(a) == HashToSeed(b)
    ensures Draws(RngFromSeed(a), n) == Draws(RngFromSeed(b), n)
  {
  }

  // ---------------------------------------------------------------------
  // randBetween, randInt
  // ---------------------------------------------------------------------

  /** `min + (max - min) * rand()`: one draw, interpolated between the bounds. */
  function RandBetween(g: Rng, lo: real, hi: real): (r: (Rng, real))
    ensures r.0 == Advance(g, 1)
    ensures r.1 == Numeric.Lerp(lo, hi, DrawAt(g, 0))
    ensures lo < hi ==> lo <= r.1 < hi
    ensures lo == hi ==> r.1 == lo
    ensures hi < lo ==> hi < r.1 <= lo
  {
    var n := Next(g);
    (n.0, Numeric.Lerp(lo, hi, n.1))
  }

  /** `randBetween` on a generator that has made `n` draws interpolates draw `n`, and makes one more. */
  lemma RandBetweenAt(g: Rng, n: nat, lo: real, hi: real)
    ensures RandBetween(Advance(g, n), lo, hi) == (Advance(g, n + 1), Numeric.Lerp(lo, hi, DrawStream(g)(n)))
  {
    DrawAtShift(g, n, 0);
    AdvanceAdd(g, n, 1);
  }

  /** `rand()` on a generator that has made `n` draws returns draw `n`, and makes one more. */
  lemma NextAt(g: Rng, n: nat)
    ensures Next(Advance(g, n)) == (Advance(g, n + 1), DrawStream(g)(n))
  {
  }

  /** `floor(randBetween(min, max + 1))`, then clamped into [min, max]. */
  function RandInt(g: Rng, lo: int, hi: int): (r: (Rng, int))
    ensures r.0 == Advance(g, 1)
    ensures lo <= hi ==> lo <= r.1 <= hi
    ensures hi < lo ==> r.1 == lo
    ensures lo <= hi ==> r.1 == RandBetween(g, lo as real, (hi + 1) as real).1.Floor
  {
    var (g', v) := RandBetween(g, lo as real, (hi + 1) as real);
    var f := v.Floor;
    FloorInRange(v, lo, hi);
    (g', IntMax(lo, IntMin(hi, f)))
  }

  lemma FloorInRange(v: real, lo: int, hi: int)
    requires lo <= hi ==> lo as real <= v < (hi + 1) as real
    ensures lo <= hi ==> lo <= v.Floor <= hi
  {
  }

  function IntMin(a: int, b: int): int { if a <= b then a else b }
  function IntMax(a: int, b: int): int { if a >= b then a else b }
}
