/** The pacing arithmetic of the replay loop: how long handling an envelope
    took, and how long to sleep before the next one. */
module Pacing {

  /** `max(0, a)`, notation for the bounds below. */
  function Max0(a: int): int {
    if a < 0 then 0 else a
  }

  /** The decoding time: the clock delta `after - before`, clamped to zero
      when the clock went backwards. */
  function DecodingTime(before: int, after: int): (d: int)
    ensures d >= 0 && d >= after - before
    ensures d == after - before || d == 0
  {
    var delta := after - before;
    if delta < 0 then 0 else delta
  }

  /** The sleeping time: what is left of the recommended delay once the
      decoding time is spent, never negative. */
  function SleepingTime(delay: int, decodingTime: int): (t: int)
    ensures t >= 0
    ensures decodingTime + t >= delay
    ensures t == delay - decodingTime || t == 0
  {
    var remaining := delay - decodingTime;
    if remaining < 0 then 0 else remaining
  }

  /** A non-negative decoding time never lengthens the sleep beyond the
      recommended delay; decoding within budget is amortized exactly
      (decoding plus sleeping is the delay); over budget the loop does not
      sleep at all. */
  lemma SleepWithinDelay(delay: int, decodingTime: int)
    requires decodingTime >= 0
    ensures SleepingTime(delay, decodingTime) <= Max0(delay)
    ensures decodingTime <= delay ==> decodingTime + SleepingTime(delay, decodingTime) == delay
    ensures decodingTime >= delay ==> SleepingTime(delay, decodingTime) == 0
  {
  }

  /** A sleep is issued (sleeping time positive) exactly when decoding
      finished before the recommended delay ran out. */
  lemma SleepIssuedIff(delay: int, decodingTime: int)
    ensures SleepingTime(delay, decodingTime) > 0 <==> decodingTime < delay
  {
  }
}
