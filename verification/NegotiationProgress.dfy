/**
 What negotiation of a peer connection gets done (pkg/rtc/transport.go): when calls succeed,
 offers and answers are sent, and nothing fails, closes or clears without a reason.
 */
module NegotiationProgress {
  import opened Negotiation
  import opened LocalDelivery
  import opened Wrappers

  // ---------------------------------------------------------- what clears

  /** An ICE restart is done now. */
  predicate RestartsNow(t: Transport) {
    && !t.pc.closed && t.pc.gathering.Complete?
    && (t.state.Idle? || (t.pc.hasCurrentRemote && t.pc.offerOutstanding))
  }

  /** The answer is taken and an offer is owed. */
  predicate OffersAgain(t: Transport, calls: Calls) {
    && !t.pc.closed && t.pc.offerOutstanding && t.state.Retry?
    && (calls.setRemote.UnsupportedCodec? || (calls.setRemote.Ok? && |t.remote.pending| <= calls.adds))
  }

  /** The step clears what was held back: it begins an offer that restarts ICE, or a remote offer does
      so with none put off. */
  predicate Clearing(t: Transport, e: Event) {
    match e
    case SendOffer(_) => t.isOfferer && !t.pc.closed && t.state.Idle? && RestartsICE(t, false)
    case RemoteAnswer(calls) => OffersAgain(t, calls) && RestartsICE(t, false)
    case RemoteOffer(restartsICE, _) => restartsICE && t.restarts.pendingRemoteOffer.None?
    case ICERestart(calls) => RestartsNow(t) && (t.state.Idle? || calls.setRemote.Ok?)
    case GatheringComplete(calls) =>
      t.isOfferer && t.restarts.afterGathering && RestartsNow(t) && (t.state.Idle? || calls.setRemote.Ok?)
    case _ => false
  }

  /** `longer` has this many more clears. */
  ghost predicate ClearsMore(log: seq<Output>, longer: seq<Output>, clears: bool) {
    Clears(longer) == Clears(log) + if clears then 1 else 0
  }

  lemma {:induction false} CandidatesClearNothing(log: seq<Output>, cs: seq<Option<Candidate>>)
    ensures ClearsMore(log, EmitCandidates(log, cs), false)
  {
    CandidatesLeave(log, cs);
  }

  lemma SendClears(t: Transport, n: nat, calls: Calls)
    ensures ClearsMore(t.log, SendDescription(t, n, calls).0.log, false)
  {
    LogAppend(t.log, DescriptionSent(n, true));
    if calls.wrote && t.local.caching {
      CandidatesClearNothing(t.log + [DescriptionSent(n, true)], t.local.cached[..Min(calls.sends, |t.local.cached|)]);
    }
  }

  lemma OfferClears(t: Transport, iceRestart: bool, calls: Calls)
    ensures ClearsMore(t.log, CreateAndSendOffer(t, iceRestart, calls).0.log, !t.pc.closed && t.state.Idle? && RestartsICE(t, iceRestart))
  {
    if !t.pc.closed && t.state.Idle? { MakeClears(t, RestartsICE(t, iceRestart), calls); }
  }

  lemma BeginClears(t: Transport, restart: bool)
    ensures ClearsMore(t.log, BeginOffer(t, restart).log, restart)
  {
    LogAppend(t.log, LocalCleared(t.exchanges));
  }

  lemma MakeClears(t: Transport, restart: bool, calls: Calls)
    ensures ClearsMore(t.log, MakeOffer(t, restart, calls).0.log, restart)
  {
    var begun := BeginOffer(t, restart);
    BeginClears(t, restart);
    if OfferOutcome(calls).Ok? {
      var created := OfferExists(begun, restart);
      LogAppend(begun.log, OfferCreated(restart));
      assert created.log == begun.log + [OfferCreated(restart)];
      SendClears(created, t.exchanges, calls);
    }
  }

  lemma RestartClears(t: Transport, calls: Calls)
    ensures ClearsMore(t.log, DoICERestart(t, calls).0.log, RestartsNow(t) && (t.state.Idle? || calls.setRemote.Ok?))
  {
    if !t.pc.closed && t.pc.gathering.Complete? {
      if t.state.Idle? {
        OfferClears(t, true, calls);
      } else if t.pc.hasCurrentRemote && t.pc.offerOutstanding && calls.setRemote.Ok? {
        LogAppend(t.log, Recovered);
        OfferClears(Recover(t), true, calls);
      }
    }
  }

  lemma AnswerClears(t: Transport, calls: Calls)
    ensures ClearsMore(t.log, HandleRemoteAnswer(t, calls).0.log, OffersAgain(t, calls) && RestartsICE(t, false))
  {
    var (u, result) := SetRemoteDescription(t, true, calls);
    LogAppend(t.log, AnswerApplied);
    assert u.log == t.log || u.log == t.log + [AnswerApplied];
    AgainIff(t, calls);
    if !result.NotApplied? && u.state.Retry? {
      OfferClears(u.(state := Idle), false, calls);
      assert HandleRemoteAnswer(t, calls) == CreateAndSendOffer(u.(state := Idle), false, calls);
    } else {
      assert HandleRemoteAnswer(t, calls).0.log == u.log;
    }
  }

  lemma AgainIff(t: Transport, calls: Calls)
    ensures var (u, result) := SetRemoteDescription(t, true, calls);
            && u.restarts == t.restarts
            && (OffersAgain(t, calls) <==> !result.NotApplied? && u.state.Retry? && !u.pc.closed)
  {
  }

  lemma AcceptClears(t: Transport, n: nat, calls: Calls)
    ensures ClearsMore(t.log, AcceptOffer(t, n, calls).0.log, false)
  {
    var u := SetRemoteDescription(t, false, calls).0;
    assert u.log == t.log;
    LogAppend(t.log, DescriptionSent(n, false));
    SendClears(u.(pc := u.pc.(hasLocal := true, hasCurrentRemote := true)), n, calls);
  }

  lemma RemoteOfferClears(t: Transport, restartsICE: bool, calls: Calls)
    ensures ClearsMore(t.log, HandleRemoteOffer(t, restartsICE, calls).0.log, restartsICE && t.restarts.pendingRemoteOffer.None?)
  {
    LogAppend(t.log, LocalCleared(t.exchanges));
    AcceptClears(ClearedFor(t, restartsICE), t.exchanges, calls);
  }

  lemma GatheringClears(t: Transport, calls: Calls)
    ensures ClearsMore(t.log, HandleGatheringComplete(t, calls).0.log, Clearing(t, GatheringComplete(calls)))
  {
    if t.isOfferer && t.restarts.afterGathering {
      RestartClears(t.(restarts := t.restarts.(afterGathering := false)), calls);
    } else if !t.isOfferer && t.restarts.pendingRemoteOffer.Some? {
      AcceptClears(t.(restarts := t.restarts.(pendingRemoteOffer := None)), t.restarts.pendingRemoteOffer.value, calls);
    }
  }

  lemma RequestClears(t: Transport, e: Event)
    requires e.SendOffer? || e.ICERestart?
    ensures ClearsMore(t.log, Step(t, e).log, Clearing(t, e))
  {
    if e.SendOffer? { OfferClears(RequestOffer(t), false, e.calls); } else { RestartClears(RequestRestart(t), e.calls); }
  }

  /** A step clears the candidates held back exactly then, and once. */
  lemma ClearsIff(t: Transport, e: Event)
    ensures Clears(Step(t, e).log) == Clears(t.log) + if Clearing(t, e) then 1 else 0
  {
    if e.SendOffer? || e.ICERestart? {
      RequestClears(t, e);
    } else if e.RemoteAnswer? {
      AnswerClears(t, e.calls);
    } else if e.RemoteOffer? {
      RemoteOfferClears(t, e.restartsICE, e.calls);
    } else if e.GatheringComplete? {
      GatheringClears(t, e.calls);
    } else if e.LocalICECandidate? {
      LogAppend(t.log, LocalCandidate(e.local));
    }
  }

  // ----------------------------------------------------------- what fails

  /** Every call made for the event succeeds. */
  predicate Good(t: Transport, calls: Calls) {
    && calls.create.Ok? && calls.setLocal.Ok? && calls.setRemote.Ok? && calls.wrote && calls.wroteMedia
    && |t.remote.pending| <= calls.adds && |t.local.cached| <= calls.sends
  }

  predicate AllGood(t: Transport, e: Event) {
    match e
    case SendOffer(calls) => Good(t, calls)
    case RemoteAnswer(calls) => Good(t, calls)
    case RemoteOffer(_, calls) => Good(t, calls)
    case ICERestart(calls) => Good(t, calls)
    case GatheringComplete(calls) => Good(t, calls)
    case LocalICECandidate(_, _, wrote) => wrote
    case RemoteICECandidate(_, _, add) => !add.Rejected?
    case _ => true
  }

  /** An ICE restart of an open connection in an exchange that can neither be recovered nor put off
      to the next offer. */
  predicate CannotRestart(t: Transport) {
    && !t.pc.closed && t.pc.gathering.Complete? && !t.state.Idle?
    && if t.pc.hasCurrentRemote then !t.pc.offerOutstanding else !t.pc.hasLocal
  }

  /** What is wrong even so: an answer without an offer, an offer while one is outstanding, a restart
      that cannot be done, or an exchange that has taken too long. */
  predicate Misplaced(t: Transport, e: Event) {
    match e
    case RemoteAnswer(_) => !t.pc.closed && !t.pc.offerOutstanding
    case RemoteOffer(restartsICE, _) => !t.pc.closed && t.pc.offerOutstanding && !(restartsICE && t.pc.gathering.InProgress?)
    case ICERestart(_) => CannotRestart(t)
    case GatheringComplete(_) =>
      if t.isOfferer then t.restarts.afterGathering && CannotRestart(t)
      else t.restarts.pendingRemoteOffer.Some? && !t.pc.closed && t.pc.offerOutstanding
    case AnswerTimeout => !t.state.Idle?
    case _ => false
  }

  lemma SendSucceeds(t: Transport, n: nat, calls: Calls)
    requires calls.wrote && |t.local.cached| <= calls.sends
    ensures SendDescription(t, n, calls).1
  {
  }

  lemma OfferSucceeds(t: Transport, iceRestart: bool, calls: Calls)
    requires Good(t, calls)
    ensures CreateAndSendOffer(t, iceRestart, calls).1
  {
    if !t.pc.closed && t.state.Idle? {
      var restart := RestartsICE(t, iceRestart);
      var begun := BeginOffer(t, restart);
      assert |begun.local.cached| <= |t.local.cached|;
      SendSucceeds(OfferExists(begun, restart), t.exchanges, calls);
    }
  }

  lemma RestartFailsIff(t: Transport, calls: Calls)
    requires Good(t, calls)
    ensures DoICERestart(t, calls).1 <==> !CannotRestart(t)
  {
    if !t.pc.closed && t.pc.gathering.Complete? {
      if t.state.Idle? { OfferSucceeds(t, true, calls); } else { OfferSucceeds(Recover(t), true, calls); }
    }
  }

  lemma AnswerFailsIff(t: Transport, calls: Calls)
    requires Good(t, calls)
    ensures HandleRemoteAnswer(t, calls).1 <==> t.pc.closed || t.pc.offerOutstanding
  {
    var (u, result) := SetRemoteDescription(t, true, calls);
    assert |u.remote.pending| <= |t.remote.pending|;
    if !result.NotApplied? && u.state.Retry? { OfferSucceeds(u.(state := Idle), false, calls); }
  }

  lemma AcceptFailsIff(t: Transport, n: nat, calls: Calls)
    requires Good(t, calls)
    ensures AcceptOffer(t, n, calls).1 <==> t.pc.closed || !t.pc.offerOutstanding
  {
    var (u, result) := SetRemoteDescription(t, false, calls);
    assert u.local == t.local;
    SendSucceeds(u.(pc := u.pc.(hasLocal := true, hasCurrentRemote := true)), n, calls);
  }

  lemma RemoteOfferFailsIff(t: Transport, restartsICE: bool, calls: Calls)
    requires Good(t, calls)
    ensures HandleRemoteOffer(t, restartsICE, calls).1 <==> !Misplaced(t, RemoteOffer(restartsICE, calls))
  {
    var cleared := ClearedFor(t, restartsICE);
    assert |cleared.local.cached| <= |t.local.cached| && cleared.remote == t.remote && cleared.pc == t.pc;
    AcceptFailsIff(cleared, t.exchanges, calls);
  }

  lemma GatheringFailsIff(t: Transport, calls: Calls)
    requires Good(t, calls)
    ensures HandleGatheringComplete(t, calls).1 <==> !Misplaced(t, GatheringComplete(calls))
  {
    if t.isOfferer && t.restarts.afterGathering {
      RestartFailsIff(t.(restarts := t.restarts.(afterGathering := false)), calls);
    } else if !t.isOfferer && t.restarts.pendingRemoteOffer.Some? {
      AcceptFailsIff(t.(restarts := t.restarts.(pendingRemoteOffer := None)), t.restarts.pendingRemoteOffer.value, calls);
    }
  }

  /** Where every call succeeds, negotiation fails exactly on such an event. */
  lemma FailsIffMisplaced(t: Transport, e: Event)
    requires AllGood(t, e)
    ensures Step(t, e).failed <==> t.failed || Misplaced(t, e)
  {
    if e.SendOffer? {
      OfferSucceeds(RequestOffer(t), false, e.calls);
      assert CreateAndSendOffer(RequestOffer(t), false, e.calls).0.failed == t.failed;
    } else if e.RemoteAnswer? {
      AnswerFailsIff(t, e.calls);
    } else if e.RemoteOffer? {
      RemoteOfferFailsIff(t, e.restartsICE, e.calls);
    } else if e.ICERestart? {
      RestartFailsIff(RequestRestart(t), e.calls);
    } else if e.GatheringComplete? {
      GatheringFailsIff(t, e.calls);
    }
  }

  /** Where every call succeeds, a connection is closed by Close only. */
  lemma ClosesOnly(t: Transport, e: Event)
    requires AllGood(t, e)
    ensures Step(t, e).pc.closed <==> t.pc.closed || e.Close?
  {
    if e.SendOffer? {
      OfferStaysOpen(RequestOffer(t), false, e.calls);
    } else if e.RemoteAnswer? {
      AnswerStaysOpen(t, e.calls);
    } else if e.RemoteOffer? {
      var cleared := ClearedFor(t, e.restartsICE);
      assert cleared.pc == t.pc;
      AcceptStaysOpen(cleared, t.exchanges, e.calls);
    } else if e.ICERestart? {
      RestartStaysOpen(RequestRestart(t), e.calls);
    } else if e.GatheringComplete? {
      GatheringStaysOpen(t, e.calls);
    }
  }

  /** None of these calls finds the connection closed. */
  predicate FindsOpen(calls: Calls) { calls.create.Ok? && calls.setLocal.Ok? && calls.setRemote.Ok? }

  lemma OfferStaysOpen(t: Transport, iceRestart: bool, calls: Calls)
    requires FindsOpen(calls)
    ensures CreateAndSendOffer(t, iceRestart, calls).0.pc.closed == t.pc.closed
  {
  }

  lemma RemoteStaysOpen(t: Transport, isAnswer: bool, calls: Calls)
    requires FindsOpen(calls)
    ensures SetRemoteDescription(t, isAnswer, calls).0.pc.closed == t.pc.closed
  {
  }

  lemma AnswerStaysOpen(t: Transport, calls: Calls)
    requires FindsOpen(calls)
    ensures HandleRemoteAnswer(t, calls).0.pc.closed == t.pc.closed
  {
    RemoteStaysOpen(t, true, calls);
    OfferStaysOpen(SetRemoteDescription(t, true, calls).0.(state := Idle), false, calls);
  }

  lemma AcceptStaysOpen(t: Transport, n: nat, calls: Calls)
    requires FindsOpen(calls)
    ensures AcceptOffer(t, n, calls).0.pc.closed == t.pc.closed
  {
    RemoteStaysOpen(t, false, calls);
  }

  lemma RestartStaysOpen(t: Transport, calls: Calls)
    requires FindsOpen(calls)
    ensures DoICERestart(t, calls).0.pc.closed == t.pc.closed
  {
    OfferStaysOpen(t, true, calls);
    OfferStaysOpen(Recover(t), true, calls);
  }

  lemma GatheringStaysOpen(t: Transport, calls: Calls)
    requires FindsOpen(calls)
    ensures HandleGatheringComplete(t, calls).0.pc.closed == t.pc.closed
  {
    if t.isOfferer && t.restarts.afterGathering {
      RestartStaysOpen(t.(restarts := t.restarts.(afterGathering := false)), calls);
    } else if !t.isOfferer && t.restarts.pendingRemoteOffer.Some? {
      AcceptStaysOpen(t.(restarts := t.restarts.(pendingRemoteOffer := None)), t.restarts.pendingRemoteOffer.value, calls);
    }
  }

  // ----------------------------------------------------------- what is sent

  function Released(t: Transport): seq<Output> { seq(|t.local.cached|, i requires 0 <= i < |t.local.cached| => LocalCandidate(t.local.cached[i])) }

  lemma SendWrites(t: Transport, n: nat, calls: Calls)
    requires Tidy(t) && calls.wrote && |t.local.cached| <= calls.sends
    ensures SendDescription(t, n, calls).0.log == t.log + [DescriptionSent(n, true)] + Released(t)
  {
    DescriptionReleases(t, n, calls);
  }

  /** An idle offerer creates an offer and sends it, with what was held back; an offer that restarts
      ICE clears instead. */
  lemma OfferIsSent(t: Transport, calls: Calls)
    requires Tidy(t) && Good(t, calls) && t.isOfferer && !t.pc.closed && t.state.Idle?
    ensures var u, n := Step(t, SendOffer(calls)), t.exchanges;
            && u.state.WaitingForRemote? && u.pc.offerOutstanding && u.exchanges == n + 1
            && u.log == if RestartsICE(t, false) then t.log + [LocalCleared(n), OfferCreated(true), DescriptionSent(n, true)]
                        else t.log + [OfferCreated(false), DescriptionSent(n, true)] + Released(t)
  {
    var restart := RestartsICE(t, false);
    var begun := BeginOffer(RequestOffer(t), restart);
    var created := OfferExists(begun, restart);
    SendWrites(created, t.exchanges, calls);
    assert restart ==> Released(created) == [];
    assert !restart ==> Released(created) == Released(t);
  }

  /** An ICE restart that can be done now creates and sends an offer that restarts ICE, after applying
      the last answer again to leave the current exchange. */
  lemma RestartIsSent(t: Transport, calls: Calls)
    requires Good(t, calls) && RestartsNow(t)
    ensures var u, n := Step(t, ICERestart(calls)), t.exchanges;
            && u.state.WaitingForRemote? && u.pc.offerOutstanding && !u.owed.restart && u.exchanges == n + 1
            && u.log == t.log + (if t.state.Idle? then [] else [Recovered])
                        + [LocalCleared(n), OfferCreated(true), DescriptionSent(n, true)]
  {
    var asked := RequestRestart(t);
    var ready := if t.state.Idle? then asked else Recover(asked);
    var begun := BeginOffer(ready, true);
    var created := OfferExists(begun, true);
    SendWrites(created, t.exchanges, calls);
    assert Released(created) == [];
    assert DoICERestart(asked, calls) == CreateAndSendOffer(ready, true, calls);
  }

  /** While one is unanswered a requested offer is put off to the answer. */
  lemma OfferIsPutOff(t: Transport, calls: Calls)
    requires t.isOfferer && !t.pc.closed && !t.state.Idle?
    ensures Step(t, SendOffer(calls)) == t.(state := Retry, owed := t.owed.(offer := true))
  {
  }

  /** An open connection without an offer of its own answers a remote offer, unless that is put off, and
      sends what was held back. */
  lemma AnswerIsSent(t: Transport, restartsICE: bool, calls: Calls)
    requires Tidy(t) && Good(t, calls) && !t.pc.closed && !t.pc.offerOutstanding
    requires !(restartsICE && t.pc.gathering.InProgress?)
    ensures var u, n := Step(t, RemoteOffer(restartsICE, calls)), t.exchanges;
            && u.pc.hasRemote && u.pc.hasLocal && u.remote.pending == [] && u.remote.applied == t.remote.applied + t.remote.pending
            && u.log == if restartsICE && t.restarts.pendingRemoteOffer.None? then t.log + [LocalCleared(n), DescriptionSent(n, true)]
                        else t.log + [DescriptionSent(n, true)] + Released(t)
  {
    var cleared := ClearedFor(t, restartsICE);
    assert cleared.pc == t.pc && cleared.remote == t.remote;
    var (accepted, result) := SetRemoteDescription(cleared, false, calls);
    assert result.Applied? && accepted.log == cleared.log && accepted.local == cleared.local;
    assert t.remote.pending[..|t.remote.pending|] == t.remote.pending;
    var answered := accepted.(pc := accepted.pc.(hasLocal := true, hasCurrentRemote := true));
    SendWrites(answered, t.exchanges, calls);
    if restartsICE && t.restarts.pendingRemoteOffer.None? {
      assert Released(answered) == [];
    } else {
      assert Released(answered) == Released(t);
    }
  }

  /** A restart offer met while candidates are gathered is put off; when gathering ends, an answerer
      answers it. */
  lemma PutOffIsAnswered(t: Transport, calls: Calls)
    requires Tidy(t) && Good(t, calls) && !t.pc.closed && !t.pc.offerOutstanding && !t.isOfferer
    requires t.restarts.pendingRemoteOffer.Some?
    ensures var u, n := Step(t, GatheringComplete(calls)), t.restarts.pendingRemoteOffer.value;
            u.restarts.pendingRemoteOffer.None? && u.log == t.log + [DescriptionSent(n, true)] + Released(t)
  {
    var n, begun := t.restarts.pendingRemoteOffer.value, t.(restarts := t.restarts.(pendingRemoteOffer := None));
    var (accepted, result) := SetRemoteDescription(begun, false, calls);
    assert result.Applied? && accepted.log == t.log && accepted.local == t.local;
    var answered := accepted.(pc := accepted.pc.(hasLocal := true, hasCurrentRemote := true));
    SendWrites(answered, n, calls);
    assert Released(answered) == Released(t);
  }
}
