/**
 How an attempt to subscribe ends (pkg/rtc/subscriptionmanager.go), what it takes to hold a
 track, and when a desire is given up.
 */
module SubscriptionOutcomes {
  import opened Subscriptions
  import opened Wrappers

  /** The limit of the kind, if there is one, is not reached. */
  predicate RoomFor(m: Manager, kind: Kind) {
    && (kind == Video && m.limitVideo > 0 ==> m.videoCount < m.limitVideo)
    && (kind == Audio && m.limitAudio > 0 ==> m.audioCount < m.limitAudio)
  }

  /** There is room as far as is known before the track is resolved. */
  predicate RoomAsKnown(m: Manager, t: TrackId)
    requires t in m.subs
  {
    m.subs[t].kind.Some? ==> RoomFor(m, m.subs[t].kind.value)
  }

  /** Subscribing is allowed, a track is found, and there is room for it. */
  predicate CanPlace(m: Manager, t: TrackId, env: Env)
    requires t in m.subs
  {
    env.canSubscribe && RoomAsKnown(m, t) && env.found.Some? && RoomFor(m, env.found.value.1)
  }

  lemma RoomIsCapacity(m: Manager, kind: Kind)
    ensures HasCapacity(m, kind) <==> RoomFor(m, kind)
  {
  }

  /** An attempt for a track that is not attached yet: each outcome, exactly when. */
  lemma OutcomeIff(m: Manager, t: TrackId, env: Env)
    requires AttachedInv(m) && t in m.subs && m.subs[t].track.None?
    ensures var outcome := Subscribe(m, t, env).1;
            && (outcome.Subscribed? <==> CanPlace(m, t, env) && env.hasPermission && !env.addFails)
            && (outcome.NotAdded? <==> CanPlace(m, t, env) && env.hasPermission && env.addFails)
            && (outcome.NoPermission? <==> !env.canSubscribe || (CanPlace(m, t, env) && !env.hasPermission))
            && (outcome.TrackNotFound? <==> env.canSubscribe && RoomAsKnown(m, t) && env.found.None?)
            && (outcome.LimitExceeded? <==>
                  env.canSubscribe && (!RoomAsKnown(m, t) || (env.found.Some? && !RoomFor(m, env.found.value.1))))
  {
    if m.subs[t].kind.Some? { RoomIsCapacity(m, m.subs[t].kind.value); }
    if env.found.Some? {
      RoomIsCapacity(m, env.found.value.1);
      NotAttached(m, t, env.found.value.0);
    }
  }

  /** Apart from what is known of the subscription at `t`, `n` is `m`. */
  ghost predicate OnlyLearns(m: Manager, n: Manager, t: TrackId) {
    && n == m.(subs := n.subs) && n.subs.Keys == m.subs.Keys && t in m.subs
    && (forall u :: u in m.subs && u != t ==> n.subs[u] == m.subs[u])
    && n.subs[t].track == m.subs[t].track && n.subs[t].desired == m.subs[t].desired
  }

  /** The track found is open, counted, attached and listed under its publisher; a publisher that was
      not listed is one to call back about. */
  ghost predicate Opens(m: Manager, n: Manager, t: TrackId, env: Env)
    requires t in m.subs && env.found.Some?
  {
    var (media, kind) := env.found.value;
    && t in n.subs && n.subs[t].track == Some(SubscribedTrack(media, kind, Open))
    && n.subs[t].publisher == env.publisher && n.subs[t].desired == m.subs[t].desired
    && n.subs.Keys == m.subs.Keys && (forall u :: u in m.subs && u != t ==> n.subs[u] == m.subs[u])
    && n.attached == m.attached + {(t, media)}
    && n.videoCount == m.videoCount + (if kind == Video then 1 else 0)
    && n.audioCount == m.audioCount + (if kind == Audio then 1 else 0)
    && n.subscribedTo == m.subscribedTo[env.publisher := TracksOf(m, env.publisher) + {t}]
    && n.status == (if env.publisher in m.subscribedTo then m.status else Decide(m.status, StatusChange(env.publisher, true)))
  }

  /** Only an attempt that subscribes changes tracks, counters, index, callbacks and attachments. */
  lemma OutcomeEffect(m: Manager, t: TrackId, env: Env)
    requires AttachedInv(m) && t in m.subs && m.subs[t].track.None?
    ensures var (n, outcome) := Subscribe(m, t, env);
            if outcome.Subscribed? then env.found.Some? && Opens(m, n, t, env) else OnlyLearns(m, n, t)
  {
    if env.found.Some? { NotAttached(m, t, env.found.value.0); }
  }

  // ------------------------------------------------------------- over runs

  /** The step attaches `media` for the track id, with both permissions given. */
  predicate Attaches(m: Manager, e: Event, t: TrackId, media: int) {
    && e.ReconcileTrack? && e.t == t && e.env.canSubscribe && e.env.hasPermission && !e.env.addFails
    && e.env.found.Some? && e.env.found.value.0 == media
    && t in m.subs && m.subs[t].desired && m.subs[t].track.None?
  }

  ghost predicate WasAttached(start: Manager, es: seq<Event>, t: TrackId, media: int) {
    es != [] && (WasAttached(start, es[..|es| - 1], t, media) || Attaches(Run(start, es[..|es| - 1]), es[|es| - 1], t, media))
  }

  lemma StepAttaches(m: Manager, e: Event, t: TrackId, media: int)
    requires Inv(m) && (t, media) in Step(m, e).attached && (t, media) !in m.attached
    ensures Attaches(m, e, t, media)
  {
    if e.ReconcileTrack? && e.t in m.subs && !m.status.Calling() && m.subs[e.t].NeedsSubscribe() {
      OutcomeIff(m, e.t, e.env);
      OutcomeEffect(m, e.t, e.env);
    }
  }

  /** In every run: a published track holds this subscriber only after an attempt, made while the
      track was desired, that found it with both permissions given. */
  lemma {:induction false} AttachedWithPermission(limitVideo: int, limitAudio: int, es: seq<Event>, t: TrackId, media: int)
    requires (t, media) in Run(Start(limitVideo, limitAudio), es).attached
    ensures WasAttached(Start(limitVideo, limitAudio), es, t, media)
  {
    if es != [] {
      var start, front := Start(limitVideo, limitAudio), es[..|es| - 1];
      if (t, media) in Run(start, front).attached {
        AttachedWithPermission(limitVideo, limitAudio, front, t, media);
      } else {
        StartInv(limitVideo, limitAudio);
        RunKeepsInv(start, front);
        StepAttaches(Run(start, front), es[|es| - 1], t, media);
      }
    }
  }

  predicate IsDesired(m: Manager, t: TrackId) { t in m.subs && m.subs[t].desired }

  /** Reconciling finds no track for a desired subscription, past the timeout. */
  predicate GivesUp(m: Manager, t: TrackId, env: Env) {
    && t in m.subs && m.subs[t].track.None? && !m.status.Calling() && !env.waitsForUnsubscribes
    && env.canSubscribe && RoomAsKnown(m, t) && env.found.None? && env.notFoundTimeout
  }

  /** A track is desired from the wish on, until that is withdrawn, its source is removed, or it is
      not found past the timeout; on no other ground. */
  lemma DesiredIff(m: Manager, e: Event, t: TrackId)
    requires Inv(m)
    ensures IsDesired(Step(m, e), t) <==>
              match e
              case SubscribeToTrack(u) => u == t || IsDesired(m, t)
              case UnsubscribeFromTrack(u) => u != t && IsDesired(m, t)
              case SourceTrackRemoved(u) => u != t && IsDesired(m, t)
              case ReconcileTrack(u, env) => IsDesired(m, t) && !(u == t && GivesUp(m, t, env))
              case _ => IsDesired(m, t)
  {
    if e.ReconcileTrack? && e.t in m.subs && !m.status.Calling() && m.subs[e.t].NeedsSubscribe() {
      OutcomeIff(m, e.t, e.env);
      OutcomeEffect(m, e.t, e.env);
    }
  }

  /** A subscription is there from the first wish or settings on, and goes only when it is reconciled
      with nothing desired and nothing held. */
  lemma SubscriptionIff(m: Manager, e: Event, t: TrackId)
    requires Inv(m)
    ensures t in Step(m, e).subs <==>
              if t in m.subs
              then !(e.ReconcileTrack? && e.t == t && !m.status.Calling() && !m.subs[t].desired && m.subs[t].track.None?)
              else (e.SubscribeToTrack? || e.UpdateSettings?) && e.t == t
  {
    if e.ReconcileTrack? && e.t in m.subs && !m.status.Calling() && m.subs[e.t].NeedsSubscribe() {
      OutcomeEffect(m, e.t, e.env);
    }
  }
}
