/** What a whole replay does, stated against reference projections of the
    player's entries that are defined without the state machine: which
    envelopes reach the image handler, which are forwarded, which get
    published, which sleeps are issued. */
module Properties {
  import opened Types
  import opened Pacing
  import opened Publish
  import opened Pipeline

  /** The envelopes the loop hands to the image handler, in replay order. */
  function Routed(es: seq<Entry>): seq<Envelope>
    decreases |es|
  {
    if es == [] then []
    else
      var e := es[|es| - 1];
      Routed(es[..|es| - 1]) + (if RoutesToImage(e) then [e.envelope] else [])
  }

  /** The envelopes the loop forwards to the live session, in replay order. */
  function Forwarded(es: seq<Entry>): seq<Envelope>
    decreases |es|
  {
    if es == [] then []
    else
      var e := es[|es| - 1];
      Forwarded(es[..|es| - 1]) + (if RoutesToSession(e) then [e.envelope] else [])
  }

  /** The image envelopes that pass the sender filter `id` and the format gate. */
  function Selected(id: uint32, envs: seq<Envelope>): seq<Envelope>
    decreases |envs|
  {
    if envs == [] then []
    else
      var env := envs[|envs| - 1];
      Selected(id, envs[..|envs| - 1]) + (if Publishes(id, env) then [env] else [])
  }

  /** The sample time stamps of the given envelopes. */
  function Stamps(envs: seq<Envelope>): seq<TimeStamp>
    decreases |envs|
  {
    if envs == [] then [] else Stamps(envs[..|envs| - 1]) + [envs[|envs| - 1].sampleTimeStamp]
  }

  /** The sleeps the loop issues, one per found entry that leaves time. */
  function IssuedSleeps(es: seq<Entry>): seq<int>
    decreases |es|
  {
    if es == [] then []
    else
      var e := es[|es| - 1];
      IssuedSleeps(es[..|es| - 1]) + (if e.found && SleepOf(e) > 0 then [SleepOf(e)] else [])
  }

  /** The size of the region created for an image envelope. */
  function FrameSize(env: Envelope): uint32 {
    RegionSize(env.image.width, env.image.height)
  }

  lemma ProjectionsSnoc(es: seq<Entry>, e: Entry)
    ensures Routed(es + [e]) == Routed(es) + (if RoutesToImage(e) then [e.envelope] else [])
    ensures Forwarded(es + [e]) == Forwarded(es) + (if RoutesToSession(e) then [e.envelope] else [])
    ensures IssuedSleeps(es + [e]) == IssuedSleeps(es) + (if e.found && SleepOf(e) > 0 then [SleepOf(e)] else [])
  {
    assert (es + [e])[..|es|] == es;
  }

  lemma SelectedSnoc(id: uint32, envs: seq<Envelope>, env: Envelope)
    ensures Selected(id, envs + [env]) == Selected(id, envs) + (if Publishes(id, env) then [env] else [])
    ensures Stamps(envs + [env]) == Stamps(envs) + [env.sampleTimeStamp]
  {
    assert (envs + [env])[..|envs|] == envs;
  }

  /** Unfolds `Steps` and the projections at the last entry of a non-empty run. */
  lemma SplitLast(s: State, es: seq<Entry>) returns (p: seq<Entry>, e: Entry)
    requires es != []
    ensures es == p + [e]
    ensures Steps(s, es) == Step(Steps(s, p), e)
    ensures Routed(es) == Routed(p) + (if RoutesToImage(e) then [e.envelope] else [])
    ensures Forwarded(es) == Forwarded(p) + (if RoutesToSession(e) then [e.envelope] else [])
    ensures IssuedSleeps(es) == IssuedSleeps(p) + (if e.found && SleepOf(e) > 0 then [SleepOf(e)] else [])
  {
    p, e := es[..|es| - 1], es[|es| - 1];
    assert es == p + [e];
    ProjectionsSnoc(p, e);
  }

  /** Forwarded envelopes leave in replay order, unchanged, whatever their
      sender. */
  lemma {:induction false} ForwardedInReplayOrder(s: State, es: seq<Entry>)
    ensures Steps(s, es).forwarded == s.forwarded + Forwarded(es)
    decreases |es|
  {
    if es != [] {
      var p, e := SplitLast(s, es);
      ForwardedInReplayOrder(s, p);
    }
  }

  /** The sleeps issued are those of the pacing clamp, in replay order. */
  lemma {:induction false} SleepsInReplayOrder(s: State, es: seq<Entry>)
    ensures Steps(s, es).sleeps == s.sleeps + IssuedSleeps(es)
    decreases |es|
  {
    if es != [] {
      var p, e := SplitLast(s, es);
      SleepsInReplayOrder(s, p);
    }
  }

  /** Every sleep issued is positive; there is at most one per entry. */
  lemma {:induction false} IssuedSleepsPositive(es: seq<Entry>)
    ensures |IssuedSleeps(es)| <= |es|
    ensures forall k :: 0 <= k < |IssuedSleeps(es)| ==> IssuedSleeps(es)[k] > 0
    decreases |es|
  {
    if es != [] {
      var p, e := SplitLast(Initial(None), es);
      IssuedSleepsPositive(p);
    }
  }

  /** Once the sender filter is fixed it never changes. */
  lemma {:induction false} IdFixedOnceSet(s: State, es: seq<Entry>)
    requires s.isIdSet
    ensures Steps(s, es).isIdSet && Steps(s, es).id == s.id
    decreases |es|
  {
    if es != [] {
      var p, e := SplitLast(s, es);
      IdFixedOnceSet(s, p);
    }
  }

  /** A run without image envelopes touches neither the sender filter nor
      the region. */
  lemma {:induction false} NoImageNoChange(s: State, es: seq<Entry>)
    requires Routed(es) == []
    ensures var r := Steps(s, es);
      r.isIdSet == s.isIdSet && r.id == s.id && r.region == s.region && r.events == s.events
    decreases |es|
  {
    if es != [] {
      var p, e := SplitLast(s, es);
      NoImageNoChange(s, p);
    }
  }

  /** Without a configured filter, a run behaves as if the sender stamp of
      its first image envelope had been configured. */
  lemma {:induction false} AdoptsFirstImageSender(s: State, es: seq<Entry>)
    requires !s.isIdSet && Routed(es) != []
    ensures Steps(s, es) == Steps(s.(isIdSet := true, id := Routed(es)[0].senderStamp), es)
    decreases |es|
  {
    var p, e := SplitLast(s, es);
    var s' := s.(isIdSet := true, id := Routed(es)[0].senderStamp);
    var p', e' := SplitLast(s', es);
    assert p' == p && e' == e;
    if Routed(p) != [] {
      assert Routed(es)[0] == Routed(p)[0];
      AdoptsFirstImageSender(s, p);
    } else {
      assert RoutesToImage(e) && Routed(es)[0] == e.envelope;
      NoImageNoChange(s, p);
      NoImageNoChange(s', p);
      ForwardedInReplayOrder(s, p);
      ForwardedInReplayOrder(s', p);
      SleepsInReplayOrder(s, p);
      SleepsInReplayOrder(s', p);
      var u, u' := Steps(s, p), Steps(s', p);
      assert u' == u.(isIdSet := true, id := e.envelope.senderStamp);
      assert HandleImage(u, e.envelope) == HandleImage(u', e.envelope);
    }
  }

  /** An existing region is never recreated or resized. */
  lemma {:induction false} RegionNeverResized(s: State, es: seq<Entry>)
    requires s.region.Some?
    ensures Steps(s, es).region == s.region
    decreases |es|
  {
    if es != [] {
      var p, e := SplitLast(s, es);
      RegionNeverResized(s, p);
    }
  }

  /** The region and its calls after publishing the frames `sel`, starting
      from the state `s`. */
  predicate PublishedFrom(s: State, sel: seq<Envelope>, r: State) {
    r.region == (if s.region.Some? then s.region else if sel == [] then None else Some(FrameSize(sel[0]))) &&
    r.events == s.events
      + (if s.region.None? && sel != [] then [Create(FrameSize(sel[0]))] else [])
      + PublishTrace(Stamps(sel))
  }

  /** Publishing one more selected frame extends the characterization. */
  lemma PublishOneMore(s: State, sel: seq<Envelope>, u: State, env: Envelope)
    requires PublishedFrom(s, sel, u)
    requires u.isIdSet && Publishes(u.id, env)
    ensures PublishedFrom(s, sel + [env], HandleImage(u, env))
  {
    var h := HandleImage(u, env);
    SelectedSnoc(u.id, sel, env);
    PublishTraceSnoc(Stamps(sel), env.sampleTimeStamp);
    if sel != [] {
      assert (sel + [env])[0] == sel[0];
      assert u.region.Some?;
    } else {
      assert (sel + [env])[0] == env;
      assert PublishTrace(Stamps(sel)) == [];
      if s.region.None? {
        assert u.region.None? && u.events == s.events;
      }
    }
  }

  /** One loop turn with the filter fixed to `s.id` keeps the characterization,
      extended by the turn's envelope when it is published. */
  lemma StepKeepsPublished(s: State, sel: seq<Envelope>, u: State, e: Entry)
    requires PublishedFrom(s, sel, u)
    requires u.isIdSet && u.id == s.id
    ensures PublishedFrom(s, sel + (if RoutesToImage(e) && Publishes(s.id, e.envelope) then [e.envelope] else []), Step(u, e))
  {
    var r := Step(u, e);
    if RoutesToImage(e) {
      var h := HandleImage(u, e.envelope);
      assert r.region == h.region && r.events == h.events;
      if Publishes(s.id, e.envelope) {
        PublishOneMore(s, sel, u, e.envelope);
      } else {
        assert sel + [] == sel;
      }
    } else {
      assert sel + [] == sel;
      assert r.region == u.region && r.events == u.events;
    }
  }

  /** With the sender filter fixed, the region is created once, sized from
      the first selected frame, and every selected frame is published with
      its own time stamp, in replay order. */
  lemma {:induction false} PublishesSelected(s: State, es: seq<Entry>)
    requires s.isIdSet
    ensures PublishedFrom(s, Selected(s.id, Routed(es)), Steps(s, es))
    decreases |es|
  {
    if es == [] {
      assert s.events + [] + [] == s.events;
    } else {
      var p, e := SplitLast(s, es);
      PublishesSelected(s, p);
      IdFixedOnceSet(s, p);
      var sel := Selected(s.id, Routed(p));
      StepKeepsPublished(s, sel, Steps(s, p), e);
      if RoutesToImage(e) {
        SelectedSnoc(s.id, Routed(p), e.envelope);
        assert Selected(s.id, Routed(es)) == sel + (if Publishes(s.id, e.envelope) then [e.envelope] else []);
      } else {
        assert Routed(es) == Routed(p);
        assert sel + [] == sel;
      }
    }
  }

  /** The sender filter a replay ends up with: the configured one, or else
      the sender stamp of the first image envelope. */
  function EffectiveId(configuredId: Option<uint32>, es: seq<Entry>): uint32 {
    if configuredId.Some? then configuredId.value
    else if Routed(es) != [] then Routed(es)[0].senderStamp
    else 0
  }

  /** The frames a replay publishes. */
  function PublishedFrames(configuredId: Option<uint32>, es: seq<Entry>): seq<Envelope> {
    Selected(EffectiveId(configuredId, es), Routed(es))
  }

  /** The outcome of a replay from the program's initial state, stated
      without the state machine. */
  function ExpectedReplay(configuredId: Option<uint32>, es: seq<Entry>): State {
    var sel := PublishedFrames(configuredId, es);
    State(
      configuredId.Some? || Routed(es) != [],
      EffectiveId(configuredId, es),
      if sel == [] then None else Some(FrameSize(sel[0])),
      if sel == [] then [] else [Create(FrameSize(sel[0]))] + PublishTrace(Stamps(sel)),
      Forwarded(es),
      IssuedSleeps(es))
  }

  /** What a whole replay from the program's initial state does.  The
      sender filter is the configured one, or else the sender stamp of the
      first image envelope; the region exists exactly when some image
      passes filter and format gate, and is sized from the first such frame;
      the region's calls are exactly the publishes of those frames; the
      forwarded envelopes and the issued sleeps are those of the
      reference projections. */
  lemma ReplayFromStart(configuredId: Option<uint32>, es: seq<Entry>)
    ensures Steps(Initial(configuredId), es) == ExpectedReplay(configuredId, es)
  {
    var s := Initial(configuredId);
    var r := Steps(s, es);
    var x := ExpectedReplay(configuredId, es);
    ForwardedInReplayOrder(s, es);
    SleepsInReplayOrder(s, es);
    assert r.forwarded == x.forwarded && r.sleeps == x.sleeps;
    if configuredId.Some? {
      IdFixedOnceSet(s, es);
      PublishesSelected(s, es);
    } else if Routed(es) != [] {
      var s' := s.(isIdSet := true, id := Routed(es)[0].senderStamp);
      AdoptsFirstImageSender(s, es);
      IdFixedOnceSet(s', es);
      PublishesSelected(s', es);
    } else {
      NoImageNoChange(s, es);
    }
  }

  /** The region's calls over a whole replay obey the lock protocol and end
      with the lock released, the region is created at most once, and the
      time stamps written are those of the published frames in replay order. */
  lemma RegionTraceWellFormed(configuredId: Option<uint32>, es: seq<Entry>)
    ensures var t := Steps(Initial(configuredId), es).events;
      ObeysLock(t, false) && !HeldAfter(t, false) &&
      Creations(t) == (if PublishedFrames(configuredId, es) == [] then 0 else 1) &&
      TaggedStamps(t) == Stamps(PublishedFrames(configuredId, es))
  {
    ReplayFromStart(configuredId, es);
    var sel := PublishedFrames(configuredId, es);
    var trace := PublishTrace(Stamps(sel));
    PublishTraceObeysLock(Stamps(sel));
    NoCreationInPublishTrace(Stamps(sel));
    TaggedStampsOfPublishTrace(Stamps(sel));
    if sel != [] {
      var c := [Create(FrameSize(sel[0]))];
      assert c[1..] == [];
      ObeysLockAppend(c, trace, false);
      CreationsAppend(c, trace);
      TaggedStampsAppend(c, trace);
      assert c[..0] == [];
    }
  }
}
