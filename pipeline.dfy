/** The replay-and-publish state machine: the image handler with its
    captured selection state and lazily created output region, and the
    replay loop that routes, forwards and paces.

    `State` is the abstract value of the machine; `HandleImage`, `Step` and
    `Steps` say what the handler, one loop turn and a run of turns do to it.
    The class `Replayer` holds the same state in fields and performs the
    same operations step by step; its methods are proved against those
    functions. */
module Pipeline {
  import opened Types
  import opened Pacing
  import opened Publish

  datatype State = State(
    isIdSet: bool,                // whether the sender filter is fixed
    id: uint32,                   // the sender stamp whose images are published
    region: Option<uint32>,       // the output region's size, once it exists
    events: seq<RegionEvent>,     // every call made on the output region
    forwarded: seq<Envelope>,     // every envelope sent to the live session
    sleeps: seq<int>)             // every sleep issued, in microseconds

  /** The state before the first envelope, with or without `--id`. */
  function Initial(configuredId: Option<uint32>): (s: State)
    ensures s.isIdSet <==> configuredId.Some?
    ensures configuredId.Some? ==> s.id == configuredId.value
    ensures s.region.None? && s.events == [] && s.forwarded == [] && s.sleeps == []
  {
    match configuredId
    case Some(v) => State(true, v, None, [], [], [])
    case None => State(false, 0, None, [], [], [])
  }

  /** Whether an image envelope reaches the publish path once `id` is fixed. */
  predicate Publishes(id: uint32, env: Envelope) {
    env.senderStamp == id && env.image.fourcc == H264
  }

  /** The image handler.  The first envelope it sees fixes the sender filter
      when none was configured; an envelope of that sender carrying h264
      creates the region if there is none yet and is then published. */
  function HandleImage(s: State, env: Envelope): (r: State)
    // the filter is fixed afterwards and never changes once it was fixed
    ensures r.isIdSet && r.id == (if s.isIdSet then s.id else env.senderStamp)
    // the handler forwards nothing and sleeps not
    ensures r.forwarded == s.forwarded && r.sleeps == s.sleeps
    // an existing region is never recreated or resized
    ensures s.region.Some? ==> r.region == s.region
    // a non-matching envelope changes nothing but the filter
    ensures !Publishes(r.id, env) ==> r.region == s.region && r.events == s.events
    // a matching one is published with its own time stamp, after the
    // region is created from its dimensions if it did not exist yet
    ensures Publishes(r.id, env) ==>
      r.region == Some(if s.region.Some? then s.region.value else RegionSize(env.image.width, env.image.height)) &&
      r.events == s.events
        + (if s.region.None? then [Create(r.region.value)] else [])
        + PublishBlock(env.sampleTimeStamp)
  {
    var s1 := if s.isIdSet then s else s.(isIdSet := true, id := env.senderStamp);
    if Publishes(s1.id, env) then
      var s2 :=
        if s1.region.None? then
          var size := RegionSize(env.image.width, env.image.height);
          s1.(region := Some(size), events := s1.events + [Create(size)])
        else s1;
      s2.(events := s2.events + PublishBlock(env.sampleTimeStamp))
    else s1
  }

  /** Whether the loop hands the entry's envelope to the image handler. */
  predicate RoutesToImage(e: Entry) {
    e.found && e.envelope.dataType == IMAGE_READING_ID
  }

  /** Whether the loop forwards the entry's envelope to the live session. */
  predicate RoutesToSession(e: Entry) {
    e.found && e.envelope.dataType != IMAGE_READING_ID
  }

  /** The sleeping time the loop computes for a found entry: the recommended
      delay less the clamped decoding time of an image, or the full delay
      (clamped) for a forwarded envelope. */
  function SleepOf(e: Entry): (t: int)
    ensures t >= 0 && t <= Max0(e.delay)
    ensures !RoutesToImage(e) ==> t == Max0(e.delay)
    ensures RoutesToImage(e) && Max0(e.after - e.before) <= e.delay ==>
      Max0(e.after - e.before) + t == e.delay
  {
    var decodingTime := if RoutesToImage(e) then DecodingTime(e.before, e.after) else 0;
    SleepWithinDelay(e.delay, decodingTime);
    SleepingTime(e.delay, decodingTime)
  }

  /** One turn of the replay loop. */
  function Step(s: State, e: Entry): (r: State)
    // an entry that was not found does nothing at all
    ensures !e.found ==> r == s
    // a forwarded envelope goes out unchanged, whatever its sender, and
    // leaves the filter, the region and its calls alone
    ensures RoutesToSession(e) ==>
      r.forwarded == s.forwarded + [e.envelope] &&
      r.isIdSet == s.isIdSet && r.id == s.id && r.region == s.region && r.events == s.events
    // an image forwards nothing
    ensures RoutesToImage(e) ==> r.forwarded == s.forwarded
    // a sleep is issued exactly when a found entry leaves time of its delay
    ensures r.sleeps == s.sleeps + (if e.found && SleepOf(e) > 0 then [SleepOf(e)] else [])
  {
    if !e.found then s
    else
      var s1 :=
        if e.envelope.dataType == IMAGE_READING_ID then HandleImage(s, e.envelope)
        else s.(forwarded := s.forwarded + [e.envelope]);
      var sleepingTime := SleepOf(e);
      if sleepingTime > 0 then s1.(sleeps := s1.sleeps + [sleepingTime]) else s1
  }

  /** A run of loop turns, one per entry, in order. */
  function Steps(s: State, es: seq<Entry>): State
    decreases |es|
  {
    if es == [] then s else Step(Steps(s, es[..|es| - 1]), es[|es| - 1])
  }

  /** How many turns the loop makes over `es`: it stops at the first turn at
      which the session is no longer running, or when the player has no
      more data. */
  function StopIndex(es: seq<Entry>): (n: nat)
    ensures n <= |es|
    decreases |es|
  {
    if es == [] || !es[0].running then 0 else 1 + StopIndex(es[1..])
  }

  /** The loop stops exactly at `StopIndex`: every turn before it saw the
      session running, and it is the end of the data or a turn at which the
      session was not running; no other index has both properties. */
  lemma {:induction false} StopIndexIsFirstHalt(es: seq<Entry>, n: nat)
    requires n <= |es|
    ensures n == StopIndex(es) <==>
      (forall k :: 0 <= k < n ==> es[k].running) && (n == |es| || !es[n].running)
    decreases |es|
  {
    if es != [] && es[0].running {
      if n > 0 {
        StopIndexIsFirstHalt(es[1..], n - 1);
        if (forall k :: 0 <= k < n - 1 ==> es[1..][k].running) {
          assert forall k :: 0 <= k < n ==> es[k].running by {
            forall k | 0 <= k < n ensures es[k].running {
              if k > 0 { assert es[k] == es[1..][k - 1]; }
            }
          }
        }
        if (forall k :: 0 <= k < n ==> es[k].running) {
          assert forall k :: 0 <= k < n - 1 ==> es[1..][k].running by {
            forall k | 0 <= k < n - 1 ensures es[1..][k].running {
              assert es[1..][k] == es[k + 1];
            }
          }
        }
        if n < |es| { assert es[n] == es[1..][n - 1]; }
      }
    }
  }

  lemma StepsSnoc(s: State, es: seq<Entry>, e: Entry)
    ensures Steps(s, es + [e]) == Step(Steps(s, es), e)
  {
    assert (es + [e])[..|es|] == es;
  }

  /** The pipeline object: the state the handler captures by reference and
      the loop's outputs, as fields. */
  class Replayer {
    const name: string            // the name of the output region
    var isIdSet: bool
    var id: uint32
    var region: Option<uint32>    // `sharedMemory`: None while it is null
    var events: seq<RegionEvent>
    var forwarded: seq<Envelope>
    var sleeps: seq<int>

    /** The abstract value of the object. */
    function Snapshot(): State
      reads this
    {
      State(isIdSet, id, region, events, forwarded, sleeps)
    }

    constructor (name: string, configuredId: Option<uint32>)
      ensures this.name == name
      ensures Snapshot() == Initial(configuredId)
    {
      this.name := name;
      isIdSet := configuredId.Some?;
      id := if configuredId.Some? then configuredId.value else 0;
      region := None;
      events := [];
      forwarded := [];
      sleeps := [];
    }

    /** One publish: lock, tag, unlock, signal. */
    method Publish(ts: TimeStamp)
      modifies this`events
      ensures events == old(events) + PublishBlock(ts)
    {
      events := events + [Lock];
      events := events + [SetTimeStamp(ts)];
      // the frame would be written here: the pixel conversion is not live code
      events := events + [Unlock];
      events := events + [NotifyAll];
    }

    /** The image handler. */
    method OnNewImage(env: Envelope)
      modifies this
      ensures Snapshot() == HandleImage(old(Snapshot()), env)
    {
      if !isIdSet {
        isIdSet := true;
        id := env.senderStamp;
      }
      if id == env.senderStamp {
        var sampleTimeStamp := env.sampleTimeStamp;
        var img := env.image;
        if img.fourcc == H264 {
          if region.None? {
            var size := RegionSize(img.width, img.height);
            region := Some(size);
            events := events + [Create(size)];
          }
          if region.Some? {
            Publish(sampleTimeStamp);
          }
        }
      }
    }

    /** The replay loop over the player's entries.  It returns how many
        turns it made. */
    method Run(entries: seq<Entry>) returns (processed: nat)
      modifies this
      ensures processed <= |entries|
      ensures forall k :: 0 <= k < processed ==> entries[k].running
      ensures processed == |entries| || !entries[processed].running
      ensures Snapshot() == Steps(old(Snapshot()), entries[..processed])
    {
      var i := 0;
      while i < |entries| && entries[i].running
        invariant 0 <= i <= |entries|
        invariant forall k :: 0 <= k < i ==> entries[k].running
        invariant Snapshot() == Steps(old(Snapshot()), entries[..i])
      {
        var next := entries[i];
        ghost var before := Snapshot();
        if next.found {
          var e := next.envelope;
          var decodingTime := 0;
          if e.dataType == IMAGE_READING_ID {
            OnNewImage(e);
            decodingTime := next.after - next.before;
            decodingTime := if decodingTime < 0 then 0 else decodingTime;
          } else {
            forwarded := forwarded + [e];
          }
          var sleepingTime := next.delay - decodingTime;
          sleepingTime := if sleepingTime < 0 then 0 else sleepingTime;
          assert sleepingTime == SleepOf(next);
          if 0 < sleepingTime {
            sleeps := sleeps + [sleepingTime];
          }
        }
        assert Snapshot() == Step(before, next);
        StepsSnoc(old(Snapshot()), entries[..i], next);
        assert entries[..i + 1] == entries[..i] + [next];
        i := i + 1;
      }
      processed := i;
    }
  }
}
