/**
 * The seeded generator behind the jittered triangle background: a
 * xorshift32 state, advanced on every draw, and the jitter that moves a
 * coordinate by at most `jitter * gap` either way. JavaScript's `<<`,
 * `>>>` and `^` on the state act on its 32 bits exactly as `bv32` does.
 */
module TriPolygon {
  const Modulus: int := 0x1_0000_0000

  /** `seed >>> 0` for an integral seed: the 32-bit pattern of the seed modulo 2^32. */
  function Seed(seed: int): bv32 {
    var m := seed % 0x1_0000_0000;
    assert 0 <= m < 0x1_0000_0000;
    m as bv32
  }

  /** Seeds that agree modulo 2^32 give the same state. */
  lemma SeedPeriodic(seed: int)
    ensures Seed(seed) == Seed(seed % Modulus)
    ensures Seed(seed + Modulus) == Seed(seed)
  {
    var m := seed % Modulus;
    assert m % Modulus == m;
    assert (seed + Modulus) % Modulus == m;
  }

  /** The three shift-and-xor stages of a step; each maps zero, and only zero, to zero. */
  function XorLeft13(s: bv32): (r: bv32)
    ensures r == 0 <==> s == 0
  {
    s ^ (s << 13)
  }

  function XorRight17(s: bv32): (r: bv32)
    ensures r == 0 <==> s == 0
  {
    s ^ (s >> 17)
  }

  function XorLeft5(s: bv32): (r: bv32)
    ensures r == 0 <==> s == 0
  {
    s ^ (s << 5)
  }

  /**
   * One xorshift32 step with shifts 13 left, 17 right (logical) and 5
   * left: zero is a fixed point, and no other state ever steps to zero.
   */
  function Step(s: bv32): (r: bv32)
    ensures r == 0 <==> s == 0
  {
    XorLeft5(XorRight17(XorLeft13(s)))
  }

  /** The draw read off a state: `(s >>> 0) % 1000 / 1000`. */
  function Value(s: bv32): (x: real)
    ensures 0.0 <= x <= 0.999
  {
    var k := (s as int) % 1000;
    assert 0 <= k <= 999;
    k as real / 1000.0
  }

  /** The state after `n` draws. */
  function Advance(s: bv32, n: nat): bv32
    decreases n
  {
    if n == 0 then s else Advance(Step(s), n - 1)
  }

  /** The next `n` draws from state `s`. */
  function DrawsFrom(s: bv32, n: nat): (r: seq<real>)
    ensures |r| == n
    ensures n > 0 ==> r[0] == Value(Step(s))
    ensures forall i :: 0 <= i < n ==> 0.0 <= r[i] <= 0.999
    decreases n
  {
    if n == 0 then [] else [Value(Step(s))] + DrawsFrom(Step(s), n - 1)
  }

  /** Drawing `m` then `n` values is drawing `m + n`. */
  lemma {:induction false} DrawsSplit(s: bv32, m: nat, n: nat)
    ensures DrawsFrom(s, m + n) == DrawsFrom(s, m) + DrawsFrom(Advance(s, m), n)
    decreases m
  {
    if m > 0 {
      var t := Step(s);
      DrawsSplit(t, m - 1, n);
      assert DrawsFrom(s, m + n) == [Value(t)] + DrawsFrom(t, (m - 1) + n);
      assert DrawsFrom(s, m) == [Value(t)] + DrawsFrom(t, m - 1);
      assert Advance(s, m) == Advance(t, m - 1);
    }
  }

  /** A non-zero state stays non-zero, and the zero state stays zero, however many steps are taken. */
  lemma {:induction false} AdvanceKeepsZero(s: bv32, n: nat)
    ensures Advance(s, n) == 0 <==> s == 0
    decreases n
  {
    if n > 0 {
      AdvanceKeepsZero(Step(s), n - 1);
    }
  }

  /** The zero state draws nothing but zeros. */
  lemma {:induction false} ZeroStateDrawsZeros(s: bv32, n: nat)
    requires s == 0
    ensures forall i :: 0 <= i < n ==> DrawsFrom(s, n)[i] == 0.0
    decreases n
  {
    if n > 0 {
      ZeroStateDrawsZeros(Step(s), n - 1);
      assert Value(Step(s)) == 0.0;
    }
  }

  /** A seed that is a multiple of 2^32 (0 among them) starts in the zero state, so every draw is 0. */
  lemma ZeroSeedDrawsZeros(seed: int, n: nat)
    requires seed % Modulus == 0
    ensures Seed(seed) == 0
    ensures forall i :: 0 <= i < n ==> DrawsFrom(Seed(seed), n)[i] == 0.0
  {
    ZeroStateDrawsZeros(Seed(seed), n);
  }

  /** Seeds that agree modulo 2^32 give the same draws. */
  lemma SameSeedSameDraws(seed1: int, seed2: int, n: nat)
    requires seed1 % Modulus == seed2 % Modulus
    ensures DrawsFrom(Seed(seed1), n) == DrawsFrom(Seed(seed2), n)
  {
  }

  /** The `rand` closure with its captured state. */
  class Rng {
    var s: bv32

    constructor(seed: int)
      ensures s == Seed(seed)
    {
      s := Seed(seed);
    }

    /** `rand()`: advance the state by one step and read the draw off the new state. */
    method Next() returns (x: real)
      modifies this
      ensures s == Step(old(s))
      ensures x == Value(s)
    {
      s := XorLeft13(s);
      s := XorRight17(s);
      s := XorLeft5(s);
      x := Value(s);
    }

    /** `n` calls of `rand()` in a row. */
    method Draws(n: nat) returns (xs: seq<real>)
      modifies this
      ensures xs == DrawsFrom(old(s), n)
      ensures s == Advance(old(s), n)
    {
      xs := [];
      var i := 0;
      while i < n
        invariant 0 <= i <= n
        invariant xs == DrawsFrom(old(s), i)
        invariant s == Advance(old(s), i)
      {
        var x := Next();
        DrawsSplit(old(s), i, 1);
        AdvanceStep(old(s), i);
        xs := xs + [x];
        i := i + 1;
      }
    }
  }

  /** One more step after `n`. */
  lemma {:induction false} AdvanceStep(s: bv32, n: nat)
    ensures Advance(s, n + 1) == Step(Advance(s, n))
    decreases n
  {
    if n > 0 {
      AdvanceStep(Step(s), n - 1);
    }
  }

  /**
   * `j(base)`: with no jitter the coordinate is kept and the generator is
   * left alone; otherwise one draw moves it by `(r * 2 - 1) * jitter * gap`.
   */
  method Jitter(rng: Rng, jitter: real, gap: real, base: real) returns (v: real)
    modifies rng
    ensures jitter <= 0.0 ==> v == base && rng.s == old(rng.s)
    ensures jitter > 0.0 ==> rng.s == Step(old(rng.s))
    ensures jitter > 0.0 ==> v == base + (Value(rng.s) * 2.0 - 1.0) * jitter * gap
    ensures jitter > 0.0 && gap >= 0.0 ==> base - jitter * gap <= v <= base + jitter * gap
  {
    if jitter <= 0.0 {
      return base;
    }
    var x := rng.Next();
    assert 0.0 <= x < 1.0;
    var r := (x * 2.0 - 1.0) * jitter * gap;
    if gap >= 0.0 {
      OffsetBounded(x, jitter, gap);
    }
    v := base + r;
  }

  /** A draw in [0, 1) moves a coordinate by at most `jitter * gap` either way. */
  lemma OffsetBounded(x: real, jitter: real, gap: real)
    requires 0.0 <= x < 1.0 && jitter > 0.0 && gap >= 0.0
    ensures -(jitter * gap) <= (x * 2.0 - 1.0) * jitter * gap <= jitter * gap
  {
    var w := jitter * gap;
    assert w >= 0.0;
    assert (x * 2.0 - 1.0) * jitter * gap == (x * 2.0 - 1.0) * w;
  }
}
