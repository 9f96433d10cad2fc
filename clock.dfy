/** The cycle counter of src/cpu/clock.rs: machine cycles (M-cycles) and
    clock cycles (T-cycles, four per M-cycle). The Rust fields are u32/u64;
    the model keeps them unbounded. */
module Cycles {

  /** The two counters as a value. */
  datatype Counters = Counters(m: nat, c: nat)
  {
    /** inc_cycle(count): `count` more M-cycles, 4 * count more T-cycles. */
    function Inc(count: nat): (r: Counters)
      ensures r.m - m == count && r.c - c == 4 * count
    {
      Counters(m + count, c + 4 * count)
    }

    /** T-cycles are four times M-cycles (true from the zeroed start). */
    predicate Consistent() {
      c == 4 * m
    }
  }

  /** Every increment keeps the 1 : 4 ratio between the counters. */
  lemma IncKeepsConsistent(k: Counters, count: nat)
    requires k.Consistent()
    ensures k.Inc(count).Consistent()
  {
  }

  /** Two increments add up. */
  lemma IncAdds(k: Counters, a: nat, b: nat)
    ensures k.Inc(a).Inc(b) == k.Inc(a + b)
  {
  }

  /** The clock as an object whose counters its methods advance in place. */
  class Clock {
    var mCycles: nat
    var cCycles: nat

    function Value(): Counters
      reads this
    {
      Counters(mCycles, cCycles)
    }

    /** Clock::default(): both counters at zero. */
    constructor ()
      ensures mCycles == 0 && cCycles == 0
      ensures Value().Consistent()
    {
      mCycles := 0;
      cCycles := 0;
    }

    /** inc_cycle. `count * 4` is computed in u8 in the source, so a count of
        64 or more would overflow; every caller passes 1. */
    method IncCycle(count: nat)
      requires count < 64
      modifies this
      ensures mCycles == old(mCycles) + count
      ensures cCycles == old(cCycles) + 4 * count
      ensures Value() == old(Value()).Inc(count)
    {
      mCycles := mCycles + count;
      cCycles := cCycles + count * 4;
    }

    /** One M-cycle. */
    method Tick()
      modifies this
      ensures Value() == old(Value()).Inc(1)
    {
      IncCycle(1);
    }
  }
}
