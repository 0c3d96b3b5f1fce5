/** The millisecond clock of the system, which starts again at zero after 2^32 milliseconds. */
module TickClock {
  const WRAP: nat := 0x1_0000_0000

  function Tick(time: nat): (tick: nat)
    ensures tick < WRAP
  {
    time % WRAP
  }

  /** The difference of two readings as the system computes it. */
  function Since(now: nat, start: nat): (elapsed: nat)
    ensures elapsed < WRAP
  {
    (now - start) % WRAP
  }

  /** The difference is the true one as long as less than a whole turn of the clock has passed. */
  lemma SinceIsElapsed(start: nat, now: nat)
    requires start <= now
    ensures Since(Tick(now), Tick(start)) == (now - start) % WRAP
    ensures now - start < WRAP ==> Since(Tick(now), Tick(start)) == now - start
  {
    var a, b := now / WRAP, start / WRAP;
    assert now == a * WRAP + Tick(now) && start == b * WRAP + Tick(start);
    ModShift(Tick(now) - Tick(start), a - b);
  }

  lemma {:induction false} ModShift(x: int, turns: int)
    ensures (x + turns * WRAP) % WRAP == x % WRAP
    decreases if turns < 0 then -turns else turns
  {
    if turns > 0 {
      ModShift(x, turns - 1);
      assert x + turns * WRAP == (x + (turns - 1) * WRAP) + WRAP;
    } else if turns < 0 {
      ModShift(x, turns + 1);
      assert x + turns * WRAP == (x + (turns + 1) * WRAP) - WRAP;
    }
  }
}
