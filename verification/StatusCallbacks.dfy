/**
 When the subscribe-status callbacks arrive in the order they were decided
 (pkg/rtc/subscriptionmanager.go).  All are made outside the lock: the callback with true by
 the reconciler after it has unlocked, the one with false by a goroutine of its own.  So
 either can be overtaken by one decided later.
 */
module StatusCallbacks {
  import opened Subscriptions
  import opened Wrappers

  /** The first change of `c`'s publisher in `s` is `c`. */
  predicate IsOldest(s: seq<StatusChange>, c: StatusChange) {
    s != [] && (s[0] == c || (s[0].publisher != c.publisher && IsOldest(s[1..], c)))
  }

  /** A callback is made in turn unless the opposite one of its publisher, decided earlier, is
      still outstanding. */
  predicate InTurn(m: Manager, e: Event) {
    e.StatusCallback? && e.c in m.status.outstanding ==> IsOldest(m.status.outstanding, e.c)
  }

  ghost predicate InTurnRun(m: Manager, es: seq<Event>) {
    es == [] || (InTurnRun(m, es[..|es| - 1]) && InTurn(Run(m, es[..|es| - 1]), es[|es| - 1]))
  }

  // -------------------------------------------- the changes of a publisher

  lemma {:induction false} OfCons(d: StatusChange, s: seq<StatusChange>, p: ParticipantId)
    ensures Of([d] + s, p) == (if d.publisher == p then [d.subscribed] else []) + Of(s, p)
  {
    if s == [] {
      assert [d] + s == [] + [d];
      OfAppend([], d, p);
    } else {
      var front, last := s[..|s| - 1], s[|s| - 1];
      assert [d] + s == ([d] + front) + [last] && s == front + [last];
      OfCons(d, front, p);
      OfAppend([d] + front, last, p);
      OfAppend(front, last, p);
    }
  }

  /** The oldest change of a publisher comes first among them. */
  lemma {:induction false} OldestIsFirst(s: seq<StatusChange>, c: StatusChange)
    requires c in s
    ensures Of(s, c.publisher) != [] && (IsOldest(s, c) <==> Of(s, c.publisher)[0] == c.subscribed)
  {
    assert s == [s[0]] + s[1..];
    OfCons(s[0], s[1..], c.publisher);
    if s[0].publisher != c.publisher { OldestIsFirst(s[1..], c); }
  }

  lemma {:induction false} WithoutOldest(s: seq<StatusChange>, c: StatusChange, p: ParticipantId)
    requires IsOldest(s, c)
    ensures Of(s, p) == (if p == c.publisher then [c.subscribed] else []) + Of(WithoutFirst(s, c), p)
  {
    assert s == [s[0]] + s[1..];
    OfCons(s[0], s[1..], p);
    if s[0] != c {
      WithoutOldest(s[1..], c, p);
      OfCons(s[0], WithoutFirst(s[1..], c), p);
    }
  }

  // ------------------------------------------------------------- the steps

  /** What a step does to the callbacks. */
  datatype Effect = Nothing | Decision(c: StatusChange) | Delivery(c: StatusChange)

  ghost predicate Has(s: Status, t: Status, effect: Effect) {
    match effect
    case Nothing => t == s
    case Decision(c) => t == Decide(s, c)
    case Delivery(c) => c in s.outstanding && t == CallBack(s, c)
  }

  lemma AddKeepsStatus(m: Manager, t: TrackId, media: int, kind: Kind, addFails: bool)
    requires t in m.subs
    ensures AddSubscriber(m, t, media, kind, addFails).0.status == m.status
  {
  }

  lemma SubscribeHasEffect(m: Manager, t: TrackId, env: Env) returns (effect: Effect)
    requires t in m.subs
    ensures Has(m.status, Subscribe(m, t, env).0.status, effect) && !effect.Delivery?
  {
    effect := Nothing;
    if env.found.Some? {
      var (media, kind) := env.found.value;
      var sub := m.subs[t];
      var known := sub.(kind := if sub.kind.None? then Some(kind) else sub.kind);
      var placed := m.(subs := m.subs[t := known.(publisher := env.publisher)]);
      var added := AddSubscriber(placed, t, media, kind, env.addFails).0;
      AddKeepsStatus(placed, t, media, kind, env.addFails);
      if Subscribe(m, t, env).1.Subscribed? && env.publisher !in added.subscribedTo {
        effect := Decision(StatusChange(env.publisher, true));
      }
    }
  }

  lemma CloseHasEffect(m: Manager, t: TrackId) returns (effect: Effect)
    requires t in m.subs
    ensures Has(m.status, HandleClose(m, t).status, effect) && !effect.Delivery?
  {
    var p := m.subs[t].publisher;
    effect := if m.subs[t].track.Some? && p in m.subscribedTo && m.subscribedTo[p] - {t} == {}
              then Decision(StatusChange(p, false)) else Nothing;
  }

  lemma StepHasEffect(m: Manager, e: Event) returns (effect: Effect)
    ensures Has(m.status, Step(m, e).status, effect)
    ensures effect.Delivery? <==> e.StatusCallback? && e.c in m.status.outstanding
    ensures effect.Delivery? ==> e.c == effect.c
  {
    effect := Nothing;
    if e.ReconcileTrack? {
      if e.t in m.subs && !m.status.Calling() && m.subs[e.t].NeedsSubscribe() && !e.env.waitsForUnsubscribes {
        effect := SubscribeHasEffect(m, e.t, e.env);
      }
    } else if e.CloseCallback? {
      if InPhase(m, e.t, Detached) { effect := CloseHasEffect(m, e.t); }
    } else if e.StatusCallback? {
      if e.c in m.status.outstanding { effect := Delivery(e.c); }
    } else {
      assert Step(m, e).status == m.status;
    }
  }

  // ------------------------------------------------------------ invariant

  /** While every callback was made in turn: the callbacks made are the oldest decisions. */
  ghost predicate Orderly(s: Status) {
    forall p :: OrderlyFor(s, p)
  }

  ghost predicate OrderlyFor(s: Status, p: ParticipantId) {
    Of(s.called, p) + Of(s.outstanding, p) == Of(s.decided, p)
  }

  lemma EffectKeepsOrderly(s: Status, t: Status, effect: Effect)
    requires Orderly(s) && Has(s, t, effect)
    requires effect.Delivery? ==> IsOldest(s.outstanding, effect.c)
    ensures Orderly(t)
  {
    forall p ensures OrderlyFor(t, p) {
      assert OrderlyFor(s, p);
      if effect.Decision? {
        OfAppend(s.decided, effect.c, p);
        OfAppend(s.outstanding, effect.c, p);
      } else if effect.Delivery? {
        OfAppend(s.called, effect.c, p);
        WithoutOldest(s.outstanding, effect.c, p);
      }
    }
  }

  lemma OvertakingBreaks(s: Status, c: StatusChange)
    requires Orderly(s) && Alternates(s.decided) && c in s.outstanding && !IsOldest(s.outstanding, c)
    ensures !Alternates(CallBack(s, c).called)
  {
    var p := c.publisher;
    assert OrderlyFor(s, p);
    OldestIsFirst(s.outstanding, c);
    OfAppend(s.called, c, p);
    var i := |Of(s.called, p)|;
    assert Of(s.decided, p)[i] == Of(s.outstanding, p)[0] != c.subscribed;
    assert TrueFalse(Of(s.decided, p));
    assert Of(s.called + [c], p)[i] == c.subscribed;
  }

  lemma OrderlyAlternates(s: Status)
    requires Orderly(s) && Alternates(s.decided)
    ensures Alternates(s.called)
  {
    forall p ensures TrueFalse(Of(s.called, p)) {
      assert OrderlyFor(s, p) && TrueFalse(Of(s.decided, p));
      var called, decided := Of(s.called, p), Of(s.decided, p);
      assert forall i :: 0 <= i < |called| ==> called[i] == decided[i];
    }
  }

  lemma StaysBroken(s: Status, t: Status, effect: Effect)
    requires Has(s, t, effect) && Alternates(t.called)
    ensures Alternates(s.called)
  {
    if effect.Delivery? {
      forall p ensures TrueFalse(Of(s.called, p)) {
        assert TrueFalse(Of(t.called, p));
        OfAppend(s.called, effect.c, p);
        var before, after := Of(s.called, p), Of(t.called, p);
        assert forall i :: 0 <= i < |before| ==> before[i] == after[i];
      }
    }
  }

  lemma {:induction false} RunIsOrderly(limitVideo: int, limitAudio: int, es: seq<Event>)
    ensures var s := Run(Start(limitVideo, limitAudio), es).status;
            if InTurnRun(Start(limitVideo, limitAudio), es) then Orderly(s) else !Alternates(s.called)
  {
    if es != [] {
      var front, e := es[..|es| - 1], es[|es| - 1];
      RunIsOrderly(limitVideo, limitAudio, front);
      DecisionsAlternate(limitVideo, limitAudio, front);
      var m := Run(Start(limitVideo, limitAudio), front);
      var effect := StepHasEffect(m, e);
      if !InTurnRun(Start(limitVideo, limitAudio), front) {
        if Alternates(Step(m, e).status.called) { StaysBroken(m.status, Step(m, e).status, effect); }
      } else if InTurn(m, e) {
        EffectKeepsOrderly(m.status, Step(m, e).status, effect);
      } else {
        OvertakingBreaks(m.status, e.c);
      }
    }
  }

  // -------------------------------------------------------- main results

  /** In every run the callbacks made alternate, per publisher, exactly when each is made in turn:
      none while the opposite one, decided earlier, is outstanding. */
  lemma {:induction false} CallbacksAlternateIffInTurn(limitVideo: int, limitAudio: int, es: seq<Event>)
    ensures Alternates(Run(Start(limitVideo, limitAudio), es).status.called)
            <==> InTurnRun(Start(limitVideo, limitAudio), es)
  {
    RunIsOrderly(limitVideo, limitAudio, es);
    DecisionsAlternate(limitVideo, limitAudio, es);
    if InTurnRun(Start(limitVideo, limitAudio), es) { OrderlyAlternates(Run(Start(limitVideo, limitAudio), es).status); }
  }

  /** Then the last callback says whether the publisher is listed, once none is outstanding. */
  lemma {:induction false} LastCallbackIsCurrent(limitVideo: int, limitAudio: int, es: seq<Event>, p: ParticipantId)
    requires InTurnRun(Start(limitVideo, limitAudio), es)
    requires Of(Run(Start(limitVideo, limitAudio), es).status.outstanding, p) == []
    ensures var m := Run(Start(limitVideo, limitAudio), es);
            Reported(m.status.called, p) <==> p in m.subscribedTo
  {
    RunIsOrderly(limitVideo, limitAudio, es);
    DecisionsAlternate(limitVideo, limitAudio, es);
    assert OrderlyFor(Run(Start(limitVideo, limitAudio), es).status, p);
  }

  /** The last callback made for `p` said otherwise than the index at that moment. */
  ghost predicate EndsStale(start: Manager, es: seq<Event>, p: ParticipantId) {
    es != [] &&
    var m, e := Run(start, es[..|es| - 1]), es[|es| - 1];
    if e.StatusCallback? && e.c in m.status.outstanding && e.c.publisher == p
    then e.c.subscribed != (p in m.subscribedTo)
    else EndsStale(start, es[..|es| - 1], p)
  }

  /** Whatever overtook what: once none is outstanding, the last callback says whether the publisher
      is listed exactly when it did so at the moment it was made. */
  lemma {:induction false} LastCallbackIsCurrentIff(limitVideo: int, limitAudio: int, es: seq<Event>, p: ParticipantId)
    requires Of(Run(Start(limitVideo, limitAudio), es).status.outstanding, p) == []
    ensures var m := Run(Start(limitVideo, limitAudio), es);
            (Reported(m.status.called, p) <==> p in m.subscribedTo) <==> !EndsStale(Start(limitVideo, limitAudio), es, p)
  {
    DecisionsAlternate(limitVideo, limitAudio, es);
    if es != [] {
      var front, e := es[..|es| - 1], es[|es| - 1];
      var m := Run(Start(limitVideo, limitAudio), front);
      DecisionsAlternate(limitVideo, limitAudio, front);
      var effect := StepHasEffect(m, e);
      EffectOn(m.status, Step(m, e).status, effect, p);
      assert p in Step(m, e).subscribedTo <==> p in m.subscribedTo;
      if !(effect.Delivery? && effect.c.publisher == p) { LastCallbackIsCurrentIff(limitVideo, limitAudio, front, p); }
    }
  }

  /** What a step that leaves nothing of `p` outstanding does to its callbacks. */
  lemma EffectOn(s: Status, t: Status, effect: Effect, p: ParticipantId)
    requires Has(s, t, effect) && Of(t.outstanding, p) == []
    ensures Of(t.decided, p) == Of(s.decided, p)
    ensures if effect.Delivery? && effect.c.publisher == p then Reported(t.called, p) == effect.c.subscribed
            else Of(t.called, p) == Of(s.called, p) && Of(s.outstanding, p) == []
  {
    if effect.Decision? {
      OfAppend(s.outstanding, effect.c, p);
      OfAppend(s.decided, effect.c, p);
    } else if effect.Delivery? {
      OfAppend(s.called, effect.c, p);
      if effect.c.publisher != p { WithoutOther(s.outstanding, effect.c, p); }
    }
  }

  lemma {:induction false} WithoutOther(s: seq<StatusChange>, c: StatusChange, p: ParticipantId)
    requires c.publisher != p
    ensures Of(WithoutFirst(s, c), p) == Of(s, p)
  {
    if s != [] {
      assert s == [s[0]] + s[1..];
      OfCons(s[0], s[1..], p);
      if s[0] != c {
        WithoutOther(s[1..], c, p);
        OfCons(s[0], WithoutFirst(s[1..], c), p);
      }
    }
  }

  // ------------------------------------------- runs in which one overtakes

  function Finding(media: int, p: ParticipantId): Env {
    Env(true, Some((media, Video)), p, true, false, false, false)
  }

  function OpenFrom(p: ParticipantId, media: int): Subscription {
    Subscription(true, p, Some(Video), Some(SubscribedTrack(media, Video, Open)))
  }

  const WantedTrack := NewSubscription.(desired := true)

  function On(p: ParticipantId): StatusChange { StatusChange(p, true) }
  function Off(p: ParticipantId): StatusChange { StatusChange(p, false) }

  /** Subscribing to the first track of a publisher. */
  lemma FirstTrackOpens(m: Manager, p: ParticipantId, t: TrackId, media: int)
    requires t in m.subs && m.subs[t] == WantedTrack && !m.status.Calling()
    requires m.limitVideo == 0 && p !in m.subscribedTo && (t, media) !in m.attached
    ensures Step(m, ReconcileTrack(t, Finding(media, p)))
            == m.(subs := m.subs[t := OpenFrom(p, media)], videoCount := m.videoCount + 1,
                  subscribedTo := m.subscribedTo[p := {t}], status := Decide(m.status, On(p)),
                  attached := m.attached + {(t, media)})
  {
    var placed := m.(subs := m.subs[t := WantedTrack.(kind := Some(Video), publisher := p)]);
    var added := AddSubscriber(placed, t, media, Video, false).0;
    assert added.subs == m.subs[t := OpenFrom(p, media)];
    assert {} + {t} == {t};
  }

  /** That track closes from its side. */
  function Closes(t: TrackId): seq<Event> { [PublisherCloses(t), DownTrackClosed(t), CloseCallback(t)] }

  lemma OnlyTrackCloses(m: Manager, p: ParticipantId, t: TrackId, media: int)
    requires t in m.subs && m.subs[t] == OpenFrom(p, media) && m.subscribedTo == map[p := {t}] && m.attached == {(t, media)}
    ensures var n := Run(m, Closes(t));
            && n.subs == m.subs[t := OpenFrom(p, media).(track := None)] && n.limitVideo == m.limitVideo
            && n.subscribedTo == map[] && n.attached == {} && n.status == Decide(m.status, Off(p))
  {
    var e0, e1, e2 := PublisherCloses(t), DownTrackClosed(t), CloseCallback(t);
    assert Closes(t)[..2] == [e0, e1] && [e0, e1][..1] == [e0] && [e0][..0] == [];
    var closing := Step(m, e0);
    assert InPhase(closing, t, Closing) && closing == m.(subs := closing.subs);
    var detached := Step(closing, e1);
    assert InPhase(detached, t, Detached) && detached.attached == {} && detached.subscribedTo == m.subscribedTo;
    assert Run(m, [e0]) == closing && Run(m, [e0, e1]) == detached;
    assert m.subscribedTo[p] - {t} == {};
  }

  lemma {:induction false} RunAppend(m: Manager, es: seq<Event>, more: seq<Event>)
    ensures Run(m, es + more) == Run(Run(m, es), more)
  {
    if more == [] {
      assert es + more == es;
    } else {
      RunAppend(m, es, more[..|more| - 1]);
      assert (es + more)[..|es + more| - 1] == es + more[..|more| - 1];
    }
  }

  lemma RunTwo(m: Manager, e0: Event, e1: Event)
    ensures Run(m, [e0, e1]) == Step(Step(m, e0), e1)
  {
    assert [e0, e1][..1] == [e0] && [e0][..0] == [];
    assert Run(m, [e0]) == Step(m, e0);
  }

  lemma CallBackOnly(s: Status, c: StatusChange)
    requires s.outstanding == [c]
    ensures CallBack(s, c) == s.(called := s.called + [c], outstanding := [])
  {
  }

  lemma CallBackSecond(s: Status, first: StatusChange, c: StatusChange)
    requires s.outstanding == [first, c] && first != c
    ensures CallBack(s, c) == s.(called := s.called + [c], outstanding := [first])
  {
    assert s.outstanding[1..] == [c];
    assert [first] + WithoutFirst([c], c) == [first];
  }

  /** Two tracks of the publisher are wanted, and the first opens. */
  function FirstOpens(p: ParticipantId, t1: TrackId, t2: TrackId): seq<Event> {
    [SubscribeToTrack(t1), SubscribeToTrack(t2)] + [ReconcileTrack(t1, Finding(1, p))]
  }

  lemma AfterFirstOpens(p: ParticipantId, t1: TrackId, t2: TrackId)
    requires t1 != t2
    ensures var m := Run(Start(0, 0), FirstOpens(p, t1, t2));
            && m.subs == map[t1 := OpenFrom(p, 1), t2 := WantedTrack] && m.limitVideo == 0
            && m.subscribedTo == map[p := {t1}] && m.attached == {(t1, 1)}
            && m.status == Status([On(p)], [], [On(p)])
  {
    var e0, e1, e2 := SubscribeToTrack(t1), SubscribeToTrack(t2), ReconcileTrack(t1, Finding(1, p));
    RunTwo(Start(0, 0), e0, e1);
    var m := Run(Start(0, 0), [e0, e1]);
    assert m == Start(0, 0).(subs := map[t1 := WantedTrack, t2 := WantedTrack]);
    FirstTrackOpens(m, p, t1, 1);
    assert ([e0, e1] + [e2])[..2] == [e0, e1];
  }

  /** The reconciler calls back and the track closes ... */
  function CalledAndClosed(p: ParticipantId, t1: TrackId, t2: TrackId): seq<Event> {
    FirstOpens(p, t1, t2) + [StatusCallback(On(p))] + Closes(t1)
  }

  lemma AfterCalledAndClosed(p: ParticipantId, t1: TrackId, t2: TrackId)
    requires t1 != t2
    ensures var m := Run(Start(0, 0), CalledAndClosed(p, t1, t2));
            && t2 in m.subs && m.subs[t2] == WantedTrack && m.limitVideo == 0
            && m.subscribedTo == map[] && m.attached == {}
            && m.status == Status([On(p), Off(p)], [On(p)], [Off(p)])
  {
    var opens, on := FirstOpens(p, t1, t2), StatusCallback(On(p));
    AfterFirstOpens(p, t1, t2);
    var m := Run(Start(0, 0), opens);
    CallBackOnly(m.status, On(p));
    assert (opens + [on])[..|opens|] == opens;
    OnlyTrackCloses(Step(m, on), p, t1, 1);
    RunAppend(Start(0, 0), opens + [on], Closes(t1));
  }

  /** ... and the second one opens before the goroutine that reports the close has run. */
  function FalseLate(p: ParticipantId, t1: TrackId, t2: TrackId): seq<Event> {
    CalledAndClosed(p, t1, t2) + ([ReconcileTrack(t2, Finding(2, p)), StatusCallback(On(p))] + [StatusCallback(Off(p))])
  }

  /** A false is overtaken by a later true: the callbacks of that run are true, true, false, and
      they end with false while the publisher is listed. */
  lemma FalseIsOvertaken(p: ParticipantId, t1: TrackId, t2: TrackId)
    requires t1 != t2
    ensures var m := Run(Start(0, 0), FalseLate(p, t1, t2));
            && m.status.called == [On(p), On(p), Off(p)]
            && p in m.subscribedTo && !Reported(m.status.called, p)
  {
    AfterCalledAndClosed(p, t1, t2);
    var opens, on, off := ReconcileTrack(t2, Finding(2, p)), StatusCallback(On(p)), StatusCallback(Off(p));
    var m := Run(Start(0, 0), CalledAndClosed(p, t1, t2));
    FirstTrackOpens(m, p, t2, 2);
    var n := Step(m, opens);
    CallBackSecond(n.status, Off(p), On(p));
    CallBackOnly(Step(n, on).status, Off(p));
    RunTwo(m, opens, on);
    assert ([opens, on] + [off])[..2] == [opens, on];
    RunAppend(Start(0, 0), CalledAndClosed(p, t1, t2), [opens, on] + [off]);
    OfAppend([On(p), On(p)], Off(p), p);
  }

  /** The reconciler has unlocked but not yet called back when the track closes and the goroutine
      that reports the close runs. */
  function TrueLate(p: ParticipantId, t1: TrackId, t2: TrackId): seq<Event> {
    FirstOpens(p, t1, t2) + Closes(t1) + [StatusCallback(Off(p)), StatusCallback(On(p))]
  }

  /** A true is overtaken by a later false: the callbacks of that run are false, true, and they
      end with true while the publisher is not listed. */
  lemma TrueIsOvertaken(p: ParticipantId, t1: TrackId, t2: TrackId)
    requires t1 != t2
    ensures var m := Run(Start(0, 0), TrueLate(p, t1, t2));
            && m.status.called == [Off(p), On(p)] && m.status.outstanding == []
            && p !in m.subscribedTo && Reported(m.status.called, p)
  {
    AfterFirstOpens(p, t1, t2);
    var opens, on, off := FirstOpens(p, t1, t2), StatusCallback(On(p)), StatusCallback(Off(p));
    OnlyTrackCloses(Run(Start(0, 0), opens), p, t1, 1);
    RunAppend(Start(0, 0), opens, Closes(t1));
    var m := Run(Start(0, 0), opens + Closes(t1));
    assert m.status == Status([On(p), Off(p)], [], [On(p), Off(p)]);
    CallBackSecond(m.status, On(p), Off(p));
    CallBackOnly(Step(m, off).status, On(p));
    RunTwo(m, off, on);
    RunAppend(Start(0, 0), opens + Closes(t1), [off, on]);
    OfAppend([Off(p)], On(p), p);
  }
}
