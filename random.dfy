/**
 * The seeded random source. Its generator is not modelled: a draw is a fixed function
 * of the seed and of how many draws came before, which is all that reproducibility
 * needs. `Word` plays the generator's part (a Weyl sequence modulo `2^64`);
 * any other function of the two would do.
 */
module Random {
  import opened Integers

  const GOLDEN: int := 0x9E37_79B9_7F4A_7C15

  /** The raw output of the `index`-th draw of a generator seeded with `seed`. */
  function Word(seed: U64, index: nat): (w: nat)
    ensures w < U64_MODULUS
  {
    (seed + (index + 1) * GOLDEN) % U64_MODULUS
  }

  /** `gen_range(0, n)` as the `index`-th draw: a value in `[0, n)`. */
  function Sample(seed: U64, index: nat, n: nat): (r: nat)
    requires n > 0
    ensures r < n
  {
    Word(seed, index) % n
  }

  /** A generator: its seed, and the number of draws taken from it so far. */
  class Rng {
    const seed: U64
    var draws: nat

    /** `StdRng::seed_from_u64(seed)`: no draws taken yet. */
    constructor SeedFromU64(seed: U64)
      ensures this.seed == seed && draws == 0
    {
      this.seed := seed;
      draws := 0;
    }

    /** `gen_range(0, high)`: one draw, a value in `[0, high)`; it panics unless `0 < high`. */
    method GenRange(high: int) returns (r: int)
      requires 0 < high
      modifies this
      ensures r == Sample(seed, old(draws), high) && 0 <= r < high
      ensures draws == old(draws) + 1
    {
      r := Sample(seed, draws, high);
      draws := draws + 1;
    }
  }
}
