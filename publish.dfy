/** The output region as the outside world sees it: the one-off creation with
    its byte size, and the calls of each publish, recorded as an event trace. */
module Publish {
  import opened Types

  datatype RegionEvent =
    | Create(size: uint32)         // the shared memory region is created
    | Lock
    | SetTimeStamp(ts: TimeStamp)
    | Unlock
    | NotifyAll

  /** `WIDTH * HEIGHT * 4` evaluated in `uint32_t`: each product wraps. */
  function RegionSize(width: uint32, height: uint32): uint32 {
    ((width * height) % U32_MODULUS * 4) % U32_MODULUS
  }

  /** The region size is the byte footprint of one 4-byte pixel per source
      pixel, reduced modulo 2^32; it is exact whenever that footprint fits
      in 32 bits. */
  lemma RegionSizeIsFootprint(width: uint32, height: uint32)
    ensures RegionSize(width, height) == (width * height * 4) % U32_MODULUS
    ensures width * height * 4 < U32_MODULUS ==> RegionSize(width, height) == width * height * 4
  {
    WrapThenScale(width * height);
  }

  /** Scaling by 4 after a 32-bit wrap-around is the same as wrapping the
      scaled value. */
  lemma WrapThenScale(p: nat)
    ensures (p % 0x1_0000_0000 * 4) % 0x1_0000_0000 == (p * 4) % 0x1_0000_0000
  {
    var q := p / 0x1_0000_0000;
    var r := p % 0x1_0000_0000;
    assert p * 4 == (q * 4) * 0x1_0000_0000 + r * 4;
  }

  /** A frame of 65536 x 16384 pixels needs 2^32 bytes, which wraps to an
      empty region. */
  lemma RegionSizeWrapsForHugeFrames()
    ensures RegionSize(65536, 16384) == 0
  {
    assert 65536 * 16384 == 0x4000_0000;
  }

  /** The calls of one publish, in order. */
  function PublishBlock(ts: TimeStamp): seq<RegionEvent> {
    [Lock, SetTimeStamp(ts), Unlock, NotifyAll]
  }

  /** What one publish does: it tags the region with its own time stamp
      only, creates nothing, obeys the lock protocol and releases the lock. */
  lemma PublishBlockFacts(ts: TimeStamp)
    ensures TaggedStamps(PublishBlock(ts)) == [ts]
    ensures Creations(PublishBlock(ts)) == 0
    ensures ObeysLock(PublishBlock(ts), false) && !HeldAfter(PublishBlock(ts), false)
  {
    var b := PublishBlock(ts);
    var b1, b2, b3 := [Lock], [Lock, SetTimeStamp(ts)], [Lock, SetTimeStamp(ts), Unlock];
    assert b[..3] == b3 && b3[..2] == b2 && b2[..1] == b1 && b1[..0] == [];
    assert TaggedStamps(b1) == [];
    assert TaggedStamps(b2) == [ts];
    assert TaggedStamps(b3) == [ts];
    assert Creations(b1) == 0 && Creations(b2) == 0 && Creations(b3) == 0;
    var c3, c2, c1 := [SetTimeStamp(ts), Unlock, NotifyAll], [Unlock, NotifyAll], [NotifyAll];
    assert b[1..] == c3 && c3[1..] == c2 && c2[1..] == c1 && c1[1..] == [];
    assert ObeysLock(c1, false) && !HeldAfter(c1, false);
    assert ObeysLock(c2, true) && !HeldAfter(c2, true);
    assert ObeysLock(c3, true) && !HeldAfter(c3, true);
  }

  /** The trace of publishing the given time stamps one after another. */
  function PublishTrace(stamps: seq<TimeStamp>): seq<RegionEvent>
    decreases |stamps|
  {
    if stamps == [] then []
    else PublishTrace(stamps[..|stamps| - 1]) + PublishBlock(stamps[|stamps| - 1])
  }

  lemma PublishTraceSnoc(stamps: seq<TimeStamp>, ts: TimeStamp)
    ensures PublishTrace(stamps + [ts]) == PublishTrace(stamps) + PublishBlock(ts)
  {
    assert (stamps + [ts])[..|stamps|] == stamps;
  }

  /** The time stamps a trace tags the region with, in order. */
  function TaggedStamps(t: seq<RegionEvent>): seq<TimeStamp>
    decreases |t|
  {
    if t == [] then []
    else match t[|t| - 1]
      case SetTimeStamp(ts) => TaggedStamps(t[..|t| - 1]) + [ts]
      case _ => TaggedStamps(t[..|t| - 1])
  }

  lemma {:induction false} TaggedStampsAppend(a: seq<RegionEvent>, b: seq<RegionEvent>)
    ensures TaggedStamps(a + b) == TaggedStamps(a) + TaggedStamps(b)
    decreases |b|
  {
    if b == [] {
      assert a + b == a;
    } else {
      var b' := b[..|b| - 1];
      assert (a + b)[..|a + b| - 1] == a + b';
      TaggedStampsAppend(a, b');
    }
  }

  /** Reading the tags back from a publish trace gives the published time
      stamps, in publish order. */
  lemma {:induction false} TaggedStampsOfPublishTrace(stamps: seq<TimeStamp>)
    ensures TaggedStamps(PublishTrace(stamps)) == stamps
    decreases |stamps|
  {
    if stamps != [] {
      var init := stamps[..|stamps| - 1];
      var ts := stamps[|stamps| - 1];
      TaggedStampsOfPublishTrace(init);
      TaggedStampsAppend(PublishTrace(init), PublishBlock(ts));
      PublishBlockFacts(ts);
      assert stamps == init + [ts];
    }
  }

  /** How many times a trace creates the region. */
  function Creations(t: seq<RegionEvent>): nat
    decreases |t|
  {
    if t == [] then 0
    else Creations(t[..|t| - 1]) + (if t[|t| - 1].Create? then 1 else 0)
  }

  lemma {:induction false} CreationsAppend(a: seq<RegionEvent>, b: seq<RegionEvent>)
    ensures Creations(a + b) == Creations(a) + Creations(b)
    decreases |b|
  {
    if b == [] {
      assert a + b == a;
    } else {
      var b' := b[..|b| - 1];
      assert (a + b)[..|a + b| - 1] == a + b';
      CreationsAppend(a, b');
    }
  }

  /** Publishing never creates a region. */
  lemma {:induction false} NoCreationInPublishTrace(stamps: seq<TimeStamp>)
    ensures Creations(PublishTrace(stamps)) == 0
    decreases |stamps|
  {
    if stamps != [] {
      var init := stamps[..|stamps| - 1];
      var b := PublishBlock(stamps[|stamps| - 1]);
      NoCreationInPublishTrace(init);
      CreationsAppend(PublishTrace(init), b);
      PublishBlockFacts(stamps[|stamps| - 1]);
    }
  }

  // The lock protocol of the region, as an independent reference: who may
  // call what while the lock is held or free.

  /** Whether `ev` may be issued when the lock is (`held`) or is not held. */
  predicate Allowed(ev: RegionEvent, held: bool) {
    match ev
    case Lock => !held
    case Unlock => held
    case SetTimeStamp(_) => held
    case NotifyAll => !held
    case Create(_) => !held
  }

  /** Whether the lock is held after `ev`. */
  function HeldAfterEvent(ev: RegionEvent, held: bool): bool {
    match ev
    case Lock => true
    case Unlock => false
    case _ => held
  }

  /** Whether the lock is held after the whole trace `t`, starting from `held`. */
  function HeldAfter(t: seq<RegionEvent>, held: bool): bool
    decreases |t|
  {
    if t == [] then held else HeldAfter(t[1..], HeldAfterEvent(t[0], held))
  }

  /** Every event of `t` is allowed at its point, starting from `held`: the
      time stamp is only written under the lock, waiters are only signalled
      with the lock free, and lock and unlock alternate. */
  predicate ObeysLock(t: seq<RegionEvent>, held: bool)
    decreases |t|
  {
    t == [] || (Allowed(t[0], held) && ObeysLock(t[1..], HeldAfterEvent(t[0], held)))
  }

  lemma {:induction false} ObeysLockAppend(a: seq<RegionEvent>, b: seq<RegionEvent>, held: bool)
    ensures ObeysLock(a + b, held) <==> ObeysLock(a, held) && ObeysLock(b, HeldAfter(a, held))
    ensures HeldAfter(a + b, held) == HeldAfter(b, HeldAfter(a, held))
    decreases |a|
  {
    if a == [] {
      assert a + b == b;
    } else {
      assert (a + b)[0] == a[0];
      assert (a + b)[1..] == a[1..] + b;
      ObeysLockAppend(a[1..], b, HeldAfterEvent(a[0], held));
    }
  }

  /** Publishes never interleave: a publish trace obeys the lock protocol
      from a free lock and leaves the lock released. */
  lemma {:induction false} PublishTraceObeysLock(stamps: seq<TimeStamp>)
    ensures ObeysLock(PublishTrace(stamps), false)
    ensures !HeldAfter(PublishTrace(stamps), false)
    decreases |stamps|
  {
    if stamps != [] {
      var init := stamps[..|stamps| - 1];
      var b := PublishBlock(stamps[|stamps| - 1]);
      PublishTraceObeysLock(init);
      ObeysLockAppend(PublishTrace(init), b, false);
      PublishBlockFacts(stamps[|stamps| - 1]);
    }
  }
}
