/**
 The SubscriptionManager object of pkg/rtc/subscriptionmanager.go, each method tied to the
 step function of Subscriptions it performs.
 */
module SubscriptionManagement {
  import opened Subscriptions
  import opened Wrappers

  /** Where published tracks and subscriptions agree, an attempt subscribes exactly when it leaves
      the track live from the publisher found. */
  lemma SubscribeMakesLive(m: Manager, t: TrackId, env: Env)
    requires AttachedInv(m) && t in m.subs && m.subs[t].track.None?
    ensures var (n, outcome) := Subscribe(m, t, env); outcome.Subscribed? <==> LiveFrom(n.subs, env.publisher, t)
  {
    if env.found.Some? {
      var media := env.found.value.0;
      assert !HoldsMedia(m.subs, t, media);
      assert (t, media) !in m.attached;
    }
  }

  /** A completed close leaves the track in no publisher's set. */
  lemma CloseTakesOut(m: Manager, t: TrackId)
    requires Inv(m) && InPhase(m, t, Detached)
    ensures Inv(HandleClose(m, t)) && forall p :: t !in TracksOf(HandleClose(m, t), p)
  {
    CloseKeepsInv(m, t);
    var n := HandleClose(m, t);
    assert n.subs[t].track.None?;
    forall p ensures t !in TracksOf(n, p) { assert t in TracksOf(n, p) <==> LiveFrom(n.subs, p, t); }
  }

  class SubscriptionManager {
    var subscriptions: map<TrackId, Subscription>
    var subscribedVideoCount: int
    var subscribedAudioCount: int
    const subscriptionLimitVideo: int
    const subscriptionLimitAudio: int
    var subscribedTo: map<ParticipantId, set<TrackId>>
    /** The status changes decided, and the callbacks made, oldest first. */
    ghost var decided: seq<StatusChange>
    ghost var called: seq<StatusChange>
    /** The callbacks still to be made: with true by the reconciler, with false by goroutines. */
    var outstanding: seq<StatusChange>
    /** The published tracks whose `subscribedTracks` hold this subscriber. */
    var attached: set<(TrackId, int)>

    constructor (limitVideo: int, limitAudio: int)
      ensures State() == Start(limitVideo, limitAudio)
    {
      subscriptions, subscribedTo, attached := map[], map[], {};
      decided, called, outstanding := [], [], [];
      subscribedVideoCount, subscribedAudioCount := 0, 0;
      subscriptionLimitVideo, subscriptionLimitAudio := limitVideo, limitAudio;
    }

    ghost function State(): Manager
      reads this
    {
      Manager(subscriptions, subscribedVideoCount, subscribedAudioCount,
              subscriptionLimitVideo, subscriptionLimitAudio, subscribedTo, Status(decided, called, outstanding), attached)
    }

    method SetDesired(t: TrackId, desired: bool)
      modifies this
      ensures State() == Subscriptions.SetDesired(old(State()), t, desired)
    {
      if t in subscriptions {
        subscriptions := subscriptions[t := subscriptions[t].(desired := desired)];
      }
    }

    method SubscribeToTrack(t: TrackId)
      modifies this
      ensures State() == Step(old(State()), Event.SubscribeToTrack(t))
      ensures t in subscriptions && subscriptions[t].desired
      ensures old(Inv(State())) ==> Inv(State())
    {
      ghost var before := State();
      if t !in subscriptions {
        subscriptions := subscriptions[t := NewSubscription];
      }
      SetDesired(t, true);
      if Inv(before) { StepKeepsInv(before, Event.SubscribeToTrack(t)); }
    }

    method UnsubscribeFromTrack(t: TrackId)
      modifies this
      ensures State() == Step(old(State()), Event.UnsubscribeFromTrack(t))
      ensures t in subscriptions ==> !subscriptions[t].desired
      ensures old(Inv(State())) ==> Inv(State())
    {
      ghost var before := State();
      SetDesired(t, false);
      if Inv(before) { StepKeepsInv(before, Event.UnsubscribeFromTrack(t)); }
    }

    function HasCapacityForSubscription(kind: Kind): (ok: bool)
      reads this
      ensures ok == HasCapacity(State(), kind)
      ensures CountersInv(State()) && kind == Video ==>
                (ok <==> subscriptionLimitVideo > 0 ==> |LiveOf(subscriptions, Video)| < subscriptionLimitVideo)
      ensures CountersInv(State()) && kind == Audio ==>
                (ok <==> subscriptionLimitAudio > 0 ==> |LiveOf(subscriptions, Audio)| < subscriptionLimitAudio)
    {
      match kind
      case Video => !(subscriptionLimitVideo > 0 && subscribedVideoCount >= subscriptionLimitVideo)
      case Audio => !(subscriptionLimitAudio > 0 && subscribedAudioCount >= subscriptionLimitAudio)
      case Data => true
    }

    /** Up to the unlock; the callback follows. */
    method MarkSubscribedTo(p: ParticipantId, t: TrackId)
      modifies this
      ensures State() == Subscriptions.MarkSubscribedTo(old(State()), p, t)
    {
      var firstSubscribe := false;
      if p !in subscribedTo {
        subscribedTo := subscribedTo[p := {}];
        firstSubscribe := true;
      }
      subscribedTo := subscribedTo[p := subscribedTo[p] + {t}];
      if firstSubscribe {
        decided := decided + [StatusChange(p, true)];
        outstanding := outstanding + [StatusChange(p, true)];
      }
    }

    method UnmarkSubscribedTo(p: ParticipantId, t: TrackId)
      modifies this
      ensures State() == Subscriptions.UnmarkSubscribedTo(old(State()), p, t)
    {
      if p in subscribedTo {
        subscribedTo := subscribedTo[p := subscribedTo[p] - {t}];
        if |subscribedTo[p]| == 0 {
          subscribedTo := subscribedTo - {p};
          decided := decided + [StatusChange(p, false)];
          outstanding := outstanding + [StatusChange(p, false)];
        }
      }
    }

    /** The reconciler, or a goroutine started by UnmarkSubscribedTo, calls back. */
    method CallBack(c: StatusChange)
      requires c in outstanding
      modifies this
      ensures State() == Step(old(State()), StatusCallback(c))
      ensures multiset(outstanding) == multiset(old(outstanding)) - multiset{c}
      ensures old(Inv(State())) ==> Inv(State())
    {
      ghost var before := State();
      if Inv(before) { StepKeepsInv(before, StatusCallback(c)); }
      WithoutFirstTakesOne(outstanding, c);
      outstanding := WithoutFirst(outstanding, c);
      called := called + [c];
    }

    method AddSubscriber(t: TrackId, media: int, kind: Kind, addFails: bool) returns (ok: bool)
      requires t in subscriptions
      modifies this
      ensures (State(), ok) == Subscriptions.AddSubscriber(old(State()), t, media, kind, addFails)
    {
      if (t, media) in attached {
        return true;
      }
      if addFails {
        return false;
      }
      attached := attached + {(t, media)};
      subscriptions := subscriptions[t := subscriptions[t].(track := Some(SubscribedTrack(media, kind, Open)))];
      match kind {
        case Video => subscribedVideoCount := subscribedVideoCount + 1;
        case Audio => subscribedAudioCount := subscribedAudioCount + 1;
        case Data =>
      }
      ok := true;
    }

    method Subscribe(t: TrackId, env: Env) returns (outcome: Outcome)
      requires t in subscriptions
      modifies this
      ensures (State(), outcome) == Subscriptions.Subscribe(old(State()), t, env)
    {
      if !env.canSubscribe {
        return NoPermission;
      }
      if subscriptions[t].kind.Some? && !HasCapacityForSubscription(subscriptions[t].kind.value) {
        return LimitExceeded;
      }
      if env.found.None? {
        return TrackNotFound;
      }
      var media, kind := env.found.value.0, env.found.value.1;
      if subscriptions[t].kind.None? {
        subscriptions := subscriptions[t := subscriptions[t].(kind := Some(kind))];
      }
      if !HasCapacityForSubscription(kind) {
        assert State().subs == old(State()).subs[t := subscriptions[t]];
        return LimitExceeded;
      }
      subscriptions := subscriptions[t := subscriptions[t].(publisher := env.publisher)];
      assert State().subs == old(State()).subs[t := subscriptions[t]];
      if !env.hasPermission {
        return NoPermission;
      }
      var ok := AddSubscriber(t, media, kind, env.addFails);
      if !ok {
        return NotAdded;
      }
      MarkSubscribedTo(env.publisher, t);
      outcome := Subscribed;
    }

    /** reconcileSubscription, which runs again only after its callback has been made. */
    method ReconcileSubscription(t: TrackId, env: Env)
      requires t in subscriptions && !State().status.Calling()
      modifies this
      ensures State() == Reconcile(old(State()), t, env)
      ensures old(Inv(State())) ==> Inv(State())
    {
      ghost var before := State();
      if Inv(before) { StepKeepsInv(before, ReconcileTrack(t, env)); }
      if subscriptions[t].NeedsSubscribe() {
        if env.waitsForUnsubscribes {
          return;
        }
        var outcome := Subscribe(t, env);
        if outcome.TrackNotFound? && env.notFoundTimeout {
          SetDesired(t, false);
        }
        return;
      }
      if subscriptions[t].NeedsUnsubscribe() {
        var track := subscriptions[t].track.value;
        if track.phase.Open? {
          subscriptions := subscriptions[t := subscriptions[t].(track := Some(track.(phase := Closing)))];
        }
        return;
      }
      if subscriptions[t].NeedsCleanup() {
        subscriptions := subscriptions - {t};
      }
    }

    method HandleSubscribedTrackClose(t: TrackId)
      requires t in subscriptions
      modifies this
      ensures State() == HandleClose(old(State()), t)
      ensures old(Inv(State()) && InPhase(State(), t, Detached)) ==>
                Inv(State()) && forall p :: t !in TracksOf(State(), p)
    {
      ghost var before := State();
      ForgetTrack(t);
      if Inv(before) && InPhase(before, t, Detached) { CloseTakesOut(before, t); }
    }

    method ForgetTrack(t: TrackId)
      requires t in subscriptions
      modifies this
      ensures State() == HandleClose(old(State()), t)
    {
      var sub := subscriptions[t];
      if sub.track.None? {
        return;
      }
      subscriptions := subscriptions[t := sub.(track := None)];
      match sub.track.value.kind {
        case Video => subscribedVideoCount := subscribedVideoCount - 1;
        case Audio => subscribedAudioCount := subscribedAudioCount - 1;
        case Data =>
      }
      UnmarkSubscribedTo(sub.publisher, t);
    }

    /** GetSubscribedParticipants and IsSubscribedTo read the index that the close callbacks
        and the reconciler keep exact. */
    method IsSubscribedTo(p: ParticipantId) returns (subscribed: bool)
      requires Inv(State())
      ensures subscribed <==> exists t :: LiveFrom(subscriptions, p, t)
    {
      subscribed := p in subscribedTo;
      assert TracksOf(State(), p) == if subscribed then subscribedTo[p] else {};
      if subscribed {
        var t :| t in subscribedTo[p];
        assert LiveFrom(State().subs, p, t);
      } else {
        assert forall t :: t !in TracksOf(State(), p);
      }
    }
  }
}
