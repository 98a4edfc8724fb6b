/** The 32-bit millisecond clock: every duration in the firmware is an unsigned
    difference of two counter values, which wraps after about 49.7 days. */
module Clock {
  const WORD: int := 0x1_0000_0000

  type uint32 = n: int | 0 <= n < WORD

  function Wrap(n: int): uint32 { n % WORD }

  /** Milliseconds counted by the hardware from reading `earlier` to reading `now`. */
  function Elapsed(now: uint32, earlier: uint32): uint32 {
    if earlier <= now then now - earlier else now - earlier + WORD
  }

  /** The unsigned difference of two counter readings is the true time between
      them, wrapped: it is exact for every true distance below 2^32 ms. */
  lemma ElapsedIsTrueTime(t0: nat, t1: nat)
    requires t0 <= t1
    ensures Elapsed(Wrap(t1), Wrap(t0)) == Wrap(t1 - t0)
    ensures t1 - t0 < WORD ==> Elapsed(Wrap(t1), Wrap(t0)) == t1 - t0
  {
  }
}
