/** The NI adapter's timeout codes, and the two functions that floor a wait to one of them. */
module Timeouts {
  import opened Common

  const WAIT_FOREVER: byte := 0xf0
  const WAIT_FOREVER_MS: nat := 0xffff_ffff

  /** The kernel driver's table: the shortest step that is long enough. */
  function TimeoutCode(ms: u32): byte {
    var us := ms * 1000;
    if us == 0 then WAIT_FOREVER
    else if us <= 10 then 0xf1 else if us <= 30 then 0xf2 else if us <= 100 then 0xf3 else if us <= 300 then 0xf4
    else if us <= 1_000 then 0xf5 else if us <= 3_000 then 0xf6 else if us <= 10_000 then 0xf7
    else if us <= 30_000 then 0xf8 else if us <= 100_000 then 0xf9 else if us <= 300_000 then 0xfa
    else if us <= 1_000_000 then 0xfb else if us <= 3_000_000 then 0xfc else if us <= 10_000_000 then 0xfd
    else if us <= 30_000_000 then 0xfe else if us <= 100_000_000 then 0xff
    else if us <= 300_000_000 then 0x01 else if us <= 1_000_000_000 then 0x02
    else WAIT_FOREVER
  }

  /** The longest step that is not too long, with its length; 0 keeps its "forever" meaning. */
  function TimeoutCodeFloor(ms: u32): (byte, nat) {
    if ms == 0 then (WAIT_FOREVER, WAIT_FOREVER_MS)
    else if 1_000_000 <= ms then (0x02, 1_000_000) else if 300_000 <= ms then (0x01, 300_000)
    else if 100_000 <= ms then (0xff, 100_000) else if 30_000 <= ms then (0xfe, 30_000)
    else if 10_000 <= ms then (0xfd, 10_000) else if 3_000 <= ms then (0xfc, 3_000)
    else if 1_000 <= ms then (0xfb, 1_000) else if 300 <= ms then (0xfa, 300)
    else if 100 <= ms then (0xf9, 100) else if 30 <= ms then (0xf8, 30)
    else if 10 <= ms then (0xf7, 10) else if 3 <= ms then (0xf6, 3)
    else (0xf5, 1)
  }

  /** The VXI-11 server's own floor. */
  function AdapterFloorMs(ms: nat): u32 {
    if 300_000 <= ms then 300_000 else if 100_000 <= ms then 100_000 else if 30_000 <= ms then 30_000
    else if 10_000 <= ms then 10_000 else if 3_000 <= ms then 3_000 else if 1_000 <= ms then 1_000
    else if 300 <= ms then 300 else if 100 <= ms then 100 else if 30 <= ms then 30
    else if 10 <= ms then 10 else if 3 <= ms then 3 else 1
  }

  /** A wait the adapter can be told exactly. */
  predicate IsStep(ms: u32) { ms > 0 && TimeoutCodeFloor(ms).1 == ms }

  /** Flooring gives the greatest step not above, under the code the rounding-up table has for it. */
  lemma FloorIsGreatestStep(ms: u32, step: u32)
    requires 0 < ms
    ensures var (code, wait) := TimeoutCodeFloor(ms);
            && 0 < wait <= ms && IsStep(wait) && TimeoutCode(wait) == code && code != WAIT_FOREVER
            && (IsStep(step) && step <= ms ==> step <= wait)
  {
  }

  /** Rounding up never waits less: the floored wait of the code's own step is at least the request. */
  lemma RoundingUpWaitsLonger(ms: u32, step: u32)
    requires 0 < ms && IsStep(step) && TimeoutCode(ms) == TimeoutCode(step)
    ensures ms <= step
  {
  }

  /**
   What the write loop sends the adapter is always a finite wait, at most the time left
   (or the one millisecond that is the least the adapter can be told).
   */
  lemma WriteWaitIsBounded(remainingMs: nat)
    ensures var ms := AdapterFloorMs(remainingMs);
            && IsStep(ms) && ms <= Max(1, remainingMs)
            && TimeoutCodeFloor(ms) == (TimeoutCode(ms), ms)
            && TimeoutCode(ms) != WAIT_FOREVER
  {
  }

  /** The two floors agree exactly below the 1000 s step, which the server's table lacks. */
  lemma FloorsAgreeIff(ms: u32)
    ensures AdapterFloorMs(ms) == TimeoutCodeFloor(ms).1 <==> 0 < ms < 1_000_000
  {
  }
}
