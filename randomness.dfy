/** The pseudo-random number generator, abstracted to a stream of draws.
    The PRNG algorithm of the runtime library is not modelled: draw number
    `p`, asked for in the range [lo, hi), is `s[(p, lo, hi)]` for some stream
    `s` fixed by the seed, and all the model knows of it is that it falls in
    the range the caller asked for. */
module Randomness {

  /** Every draw is defined and lies in the half-open range it was asked for. */
  ghost predicate InRange(s: imap<(nat, int, int), int>) {
    forall p: nat, lo: int, hi: int :: lo < hi ==> (p, lo, hi) in s && lo <= s[(p, lo, hi)] < hi
  }

  /** What a seed determines: the answer to each draw for each range. */
  type Stream = s: imap<(nat, int, int), int> | InRange(s)
    ghost witness imap k: (nat, int, int) :: k.1

  /** Draw number `p` of stream `s`, asked for in [lo, hi). */
  function Draw(s: Stream, p: nat, lo: int, hi: int): (r: int)
    requires lo < hi
    ensures lo <= r < hi
  {
    s[(p, lo, hi)]
  }

  /** `System.Random` over a stream of draws; `used` counts the draws taken
      so far. */
  class Random {
    const draws: Stream
    var used: nat

    constructor (draws: Stream)
      ensures this.draws == draws && used == 0
    {
      this.draws := draws;
      used := 0;
    }

    /** `Next(minValue, maxValue)`: the next draw, in [minValue, maxValue).
        `Next(maxValue)` is `Next(0, maxValue)`. */
    method Next(minValue: int, maxValue: int) returns (r: int)
      requires minValue < maxValue
      modifies this
      ensures used == old(used) + 1
      ensures r == Draw(draws, old(used), minValue, maxValue)
      ensures minValue <= r < maxValue
    {
      r := Draw(draws, used, minValue, maxValue);
      used := used + 1;
    }
  }
}
