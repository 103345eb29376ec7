/**
 The local candidates of a peer connection (pkg/rtc/transport.go): held back from a clear for
 an ICE restart until the offer or answer it was made for is sent.
 */
module LocalCandidates {
  import opened Negotiation
  import opened Wrappers

  // A remote offer that restarts ICE while candidates are gathered clears at once but is answered
  // only later; a description sent in between ends the hold too early.

  /** The descriptions in `log` that released the held back candidates. */
  function Descriptions(log: seq<Output>): nat {
    if log == [] then 0
    else
      var last := log[|log| - 1];
      Descriptions(log[..|log| - 1]) + if last.DescriptionSent? && last.done then 1 else 0
  }

  /** A local candidate has left since the clear for exchange `n`. */
  ghost predicate Leaked(log: seq<Output>, n: nat) {
    log != [] &&
    (Leaked(log[..|log| - 1], n)
     || (log[|log| - 1].LocalCandidate? && LocalCleared(n) in log[..|log| - 1]))
  }

  /** No description is sent with a candidate gone since its clear. */
  ghost predicate WellHeld(log: seq<Output>) {
    log == [] ||
    (WellHeld(log[..|log| - 1])
     && (log[|log| - 1].DescriptionSent? ==> !Leaked(log[..|log| - 1], log[|log| - 1].exchange)))
  }

  /** The log uses numbers below `n`. */
  ghost predicate Below(log: seq<Output>, n: nat) {
    forall o :: o in log && (o.LocalCleared? || o.DescriptionSent?) ==> o.exchange < n
  }

  /** Numbers are used in order, and the offer put off has had its clear. */
  ghost predicate Numbered(t: Transport) {
    && Below(t.log, t.exchanges)
    && (t.restarts.pendingRemoteOffer.Some? ==>
          t.restarts.pendingRemoteOffer.value < t.exchanges && LocalCleared(t.restarts.pendingRemoteOffer.value) in t.log)
  }

  lemma {:induction false} NotLeaked(log: seq<Output>, n: nat)
    requires LocalCleared(n) !in log
    ensures !Leaked(log, n)
  {
    if log != [] { NotLeaked(log[..|log| - 1], n); }
  }

  // -------------------------------------------------------------- handlers

  /** From `t` to `u`: the log grows and stays well held; either no description was completed and
      then the hold stays and nothing leaks, or one was and the hold has ended. */
  ghost predicate Moves(t: Transport, u: Transport) {
    && (WellHeld(t.log) ==> WellHeld(u.log))
    && t.log <= u.log
    && (if Descriptions(u.log) == Descriptions(t.log)
        then (t.local.caching ==> u.local.caching) && forall n :: Leaked(u.log, n) ==> Leaked(t.log, n)
        else Descriptions(u.log) > Descriptions(t.log) && !u.local.caching)
  }

  /** And it uses no number but `n`. */
  ghost predicate Uses(t: Transport, u: Transport, n: nat) {
    forall o :: o in u.log && (o.LocalCleared? || o.DescriptionSent?) ==> o in t.log || o.exchange == n
  }

  lemma MovesTransitive(t: Transport, u: Transport, w: Transport, n: nat)
    requires Moves(t, u) && Moves(u, w) && Descriptions(u.log) == Descriptions(t.log)
    requires Uses(t, u, n) && Uses(u, w, n)
    ensures Moves(t, w) && Uses(t, w, n)
  {
  }

  lemma EmitMoves(t: Transport, o: Output, n: nat)
    requires !o.LocalCandidate? && (o.LocalCleared? || o.DescriptionSent? ==> o.exchange == n)
    requires o.DescriptionSent? ==> !o.done && !Leaked(t.log, n)
    ensures Moves(t, Emit(t, o)) && Uses(t, Emit(t, o), n) && Descriptions(Emit(t, o).log) == Descriptions(t.log)
    ensures Leaked(Emit(t, o).log, n) <==> Leaked(t.log, n)
  {
  }

  lemma {:induction false} CandidatesHeld(log: seq<Output>, cs: seq<Option<Candidate>>)
    requires WellHeld(log)
    ensures WellHeld(EmitCandidates(log, cs))
  {
    if cs != [] {
      CandidatesHeld(log, cs[..|cs| - 1]);
    }
  }

  lemma {:induction false} CandidatesAreNoDescriptions(log: seq<Output>, cs: seq<Option<Candidate>>)
    ensures var longer := EmitCandidates(log, cs);
            && Descriptions(longer) == Descriptions(log)
            && log <= longer
            && (forall o :: o in longer ==> o in log || o.LocalCandidate?)
  {
    if cs != [] {
      CandidatesAreNoDescriptions(log, cs[..|cs| - 1]);
    }
  }

  lemma SendMoves(t: Transport, n: nat, calls: Calls)
    requires !Leaked(t.log, n)
    ensures Moves(t, SendDescription(t, n, calls).0) && Uses(t, SendDescription(t, n, calls).0, n)
  {
    if calls.wrote {
      var sent := Emit(t, DescriptionSent(n, true));
      assert sent.log[..|t.log|] == t.log && Descriptions(sent.log) == Descriptions(t.log) + 1;
      if t.local.caching {
        var cs := t.local.cached[..Min(calls.sends, |t.local.cached|)];
        CandidatesAreNoDescriptions(sent.log, cs);
        if WellHeld(t.log) { CandidatesHeld(sent.log, cs); }
      }
    }
  }

  lemma BeginMoves(t: Transport, restart: bool)
    requires Below(t.log, t.exchanges)
    ensures var u := BeginOffer(t, restart);
            && Moves(t, u) && Uses(t, u, t.exchanges) && Descriptions(u.log) == Descriptions(t.log)
            && !Leaked(u.log, t.exchanges)
  {
    NotLeaked(t.log, t.exchanges);
    if restart { EmitMoves(t, LocalCleared(t.exchanges), t.exchanges); }
  }

  /** `u` has the offer put off that `t` has, and has begun exchanges up to its number. */
  ghost predicate Frame(t: Transport, u: Transport) {
    u.restarts.pendingRemoteOffer == t.restarts.pendingRemoteOffer && t.exchanges <= u.exchanges
  }

  lemma MakeMoves(t: Transport, restart: bool, calls: Calls)
    requires Below(t.log, t.exchanges)
    ensures var u := MakeOffer(t, restart, calls).0;
            Moves(t, u) && Uses(t, u, t.exchanges) && Frame(t, u) && u.exchanges == t.exchanges + 1
  {
    var n, begun := t.exchanges, BeginOffer(t, restart);
    BeginMoves(t, restart);
    if OfferOutcome(calls).Ok? {
      var created := OfferExists(begun, restart);
      EmitMoves(begun, OfferCreated(restart), n);
      assert created.log == Emit(begun, OfferCreated(restart)).log;
      MovesTransitive(t, begun, created, n);
      SendMoves(created, n, calls);
      MovesTransitive(t, created, SendDescription(created, n, calls).0, n);
    }
  }

  /** A handler that keeps the offer put off, if any, and the numbers in order. */
  ghost predicate Proceeds(t: Transport, u: Transport) {
    Moves(t, u) && Frame(t, u) && Below(u.log, u.exchanges)
  }

  lemma OfferProceeds(t: Transport, iceRestart: bool, calls: Calls)
    requires Below(t.log, t.exchanges)
    ensures Proceeds(t, CreateAndSendOffer(t, iceRestart, calls).0)
  {
    if !t.pc.closed && t.state.Idle? { MakeMoves(t, RestartsICE(t, iceRestart), calls); }
  }

  lemma DescriptionMoves(t: Transport, isAnswer: bool, calls: Calls, n: nat)
    ensures var u := SetRemoteDescription(t, isAnswer, calls).0;
            && Moves(t, u) && Uses(t, u, n) && Descriptions(u.log) == Descriptions(t.log)
            && (Leaked(u.log, n) <==> Leaked(t.log, n)) && u.local == t.local
  {
    EmitMoves(t, AnswerApplied, n);
    var u := SetRemoteDescription(t, isAnswer, calls).0;
    assert u.log == t.log || u.log == Emit(t, AnswerApplied).log;
  }

  lemma DescriptionProceeds(t: Transport, isAnswer: bool, calls: Calls)
    requires Below(t.log, t.exchanges)
    ensures var u := SetRemoteDescription(t, isAnswer, calls).0; Proceeds(t, u) && Descriptions(u.log) == Descriptions(t.log)
  {
    DescriptionMoves(t, isAnswer, calls, t.exchanges);
    var u := SetRemoteDescription(t, isAnswer, calls).0;
    assert u.log == t.log || u.log == t.log + [AnswerApplied];
  }

  lemma CreateAnswerMoves(t: Transport, n: nat, calls: Calls)
    requires !Leaked(t.log, n)
    ensures var u := CreateAndSendAnswer(t, n, calls).0; Moves(t, u) && Uses(t, u, n)
  {
    var answered := t.(pc := t.pc.(hasLocal := true, hasCurrentRemote := true));
    EmitMoves(answered, DescriptionSent(n, false), n);
    SendMoves(answered, n, calls);
  }

  lemma AcceptMoves(t: Transport, n: nat, calls: Calls)
    requires !Leaked(t.log, n)
    ensures Moves(t, AcceptOffer(t, n, calls).0) && Uses(t, AcceptOffer(t, n, calls).0, n)
  {
    DescriptionMoves(t, false, calls, n);
    var (u, result) := SetRemoteDescription(t, false, calls);
    if result.Applied? {
      CreateAnswerMoves(u, n, calls);
    }
  }

  lemma AnswerProceeds(t: Transport, calls: Calls)
    requires Below(t.log, t.exchanges)
    ensures Proceeds(t, HandleRemoteAnswer(t, calls).0)
  {
    DescriptionProceeds(t, true, calls);
    var (u, result) := SetRemoteDescription(t, true, calls);
    var idle := u.(state := Idle);
    assert Proceeds(t, idle);
    if !result.NotApplied? && u.state.Retry? {
      OfferProceeds(idle, false, calls);
    }
  }

  lemma RestartProceeds(t: Transport, calls: Calls)
    requires Below(t.log, t.exchanges)
    ensures Proceeds(t, DoICERestart(t, calls).0)
  {
    if !t.pc.closed && t.pc.gathering.Complete? {
      if t.state.Idle? {
        OfferProceeds(t, true, calls);
      } else if t.pc.hasCurrentRemote && SetRemoteOutcome(t, true, calls).Ok? {
        RecoverProceeds(t);
        OfferProceeds(Recover(t), true, calls);
      }
    }
  }

  lemma RecoverProceeds(t: Transport)
    requires Below(t.log, t.exchanges)
    ensures Proceeds(t, Recover(t)) && Descriptions(Recover(t).log) == Descriptions(t.log)
  {
    EmitMoves(t, Recovered, t.exchanges);
    assert Recover(t).log == t.log + [Recovered];
  }

  lemma ClearMoves(t: Transport, restartsICE: bool)
    requires Below(t.log, t.exchanges)
    ensures var u := ClearedFor(t, restartsICE);
            && Moves(t, u) && Uses(t, u, t.exchanges) && Descriptions(u.log) == Descriptions(t.log)
            && !Leaked(u.log, t.exchanges) && u.restarts == t.restarts
  {
    NotLeaked(t.log, t.exchanges);
    EmitMoves(t, LocalCleared(t.exchanges), t.exchanges);
  }

  // ------------------------------------------------------ the offer put off

  /** An offer is put off only while its hold is intact. */
  ghost predicate Held(t: Transport) {
    t.restarts.pendingRemoteOffer.Some? ==> t.local.caching && !Leaked(t.log, t.restarts.pendingRemoteOffer.value)
  }

  /** No candidate has left since the clear for the offer put off. */
  ghost predicate Unleaked(t: Transport) {
    t.restarts.pendingRemoteOffer.Some? ==> !Leaked(t.log, t.restarts.pendingRemoteOffer.value)
  }

  /** An offer newly put off has just had its clear, and nothing else happened. */
  ghost predicate PutsOff(t: Transport, u: Transport) {
    && t.restarts.pendingRemoteOffer.None? && u.restarts.pendingRemoteOffer == Some(t.exchanges)
    && u.local.caching && u.log == t.log + [LocalCleared(t.exchanges)]
  }

  /** What any step but that of a local candidate does: it proceeds, puts an offer off, or takes up
      the one put off. */
  ghost predicate Outline(t: Transport, u: Transport) {
    && Numbered(u) && t.log <= u.log
    && (Unleaked(t) || u.restarts.pendingRemoteOffer.Some? ==> Moves(t, u))
    && (u.restarts.pendingRemoteOffer == t.restarts.pendingRemoteOffer || u.restarts.pendingRemoteOffer.None? || PutsOff(t, u))
  }

  lemma AcceptedOutline(t: Transport, restartsICE: bool, calls: Calls)
    requires Numbered(t)
    ensures Outline(t, AcceptOffer(ClearedFor(t, restartsICE), t.exchanges, calls).0)
  {
    var cleared := ClearedFor(t, restartsICE);
    ClearMoves(t, restartsICE);
    AcceptMoves(cleared, t.exchanges, calls);
    var u := AcceptOffer(cleared, t.exchanges, calls).0;
    assert Proceeds(t, u);
  }

  lemma RemoteOfferOutline(t: Transport, restartsICE: bool, calls: Calls)
    requires Numbered(t)
    ensures Outline(t, HandleRemoteOffer(t, restartsICE, calls).0)
  {
    if restartsICE && t.pc.gathering.InProgress? {
      ClearMoves(t, restartsICE);
      assert LocalCleared(t.exchanges) in t.log + [LocalCleared(t.exchanges)];
    } else {
      AcceptedOutline(t, restartsICE, calls);
    }
  }

  /** The answer to the offer put off, however the hold fared. */
  lemma AcceptKeepsNumbers(t: Transport, n: nat, calls: Calls)
    requires Below(t.log, t.exchanges) && n < t.exchanges
    ensures var u := AcceptOffer(t, n, calls).0; Below(u.log, u.exchanges) && u.restarts == t.restarts && t.log <= u.log
  {
    var (u, result) := SetRemoteDescription(t, false, calls);
    DescriptionProceeds(t, false, calls);
    var sent := u.log + [DescriptionSent(n, true)];
    CandidatesAreNoDescriptions(sent, u.local.cached[..Min(calls.sends, |u.local.cached|)]);
  }

  lemma GatheringOutline(t: Transport, calls: Calls)
    requires Numbered(t)
    ensures Outline(t, HandleGatheringComplete(t, calls).0)
  {
    if t.isOfferer && t.restarts.afterGathering {
      var begun := t.(restarts := t.restarts.(afterGathering := false));
      RestartProceeds(begun, calls);
      assert Proceeds(t, DoICERestart(begun, calls).0);
    } else if !t.isOfferer && t.restarts.pendingRemoteOffer.Some? {
      var n, begun := t.restarts.pendingRemoteOffer.value, t.(restarts := t.restarts.(pendingRemoteOffer := None));
      AcceptKeepsNumbers(begun, n, calls);
      if Unleaked(t) { AcceptMoves(begun, n, calls); }
    }
  }

  lemma StepOutline(t: Transport, e: Event)
    requires Numbered(t) && !e.LocalICECandidate?
    ensures Outline(t, Step(t, e))
  {
    if e.RemoteOffer? {
      RemoteOfferOutline(t, e.restartsICE, e.calls);
    } else if e.GatheringComplete? {
      GatheringOutline(t, e.calls);
    } else {
      StepProceeds(t, e);
    }
  }

  lemma SendOfferProceeds(t: Transport, calls: Calls)
    requires Below(t.log, t.exchanges)
    ensures Proceeds(t, Step(t, SendOffer(calls)))
  {
    OfferProceeds(RequestOffer(t), false, calls);
  }

  lemma ICERestartProceeds(t: Transport, calls: Calls)
    requires Below(t.log, t.exchanges)
    ensures Proceeds(t, Step(t, ICERestart(calls)))
  {
    RestartProceeds(RequestRestart(t), calls);
  }

  lemma StepProceeds(t: Transport, e: Event)
    requires Below(t.log, t.exchanges) && !e.LocalICECandidate? && !e.RemoteOffer? && !e.GatheringComplete?
    ensures Proceeds(t, Step(t, e))
  {
    if e.SendOffer? {
      SendOfferProceeds(t, e.calls);
    } else if e.RemoteAnswer? {
      AnswerProceeds(t, e.calls);
    } else if e.ICERestart? {
      ICERestartProceeds(t, e.calls);
    } else {
      assert Step(t, e).log == t.log && Step(t, e).local == t.local;
    }
  }

  lemma StepKeepsNumbers(t: Transport, e: Event)
    requires Numbered(t)
    ensures Numbered(Step(t, e))
  {
    if !e.LocalICECandidate? { StepOutline(t, e); }
  }

  // ----------------------------------------------------- when the hold holds

  /** The hold is intact as far as the next candidate can tell: it will be cached. */
  predicate Holding(t: Transport) {
    t.restarts.pendingRemoteOffer.Some? ==> t.local.caching
  }

  /** An offer is created, and its description completed. */
  predicate CompletesOffer(t: Transport, calls: Calls) {
    !t.pc.closed && t.state.Idle? && OfferOutcome(calls).Ok? && calls.wrote
  }

  /** An ICE restart is done now, with an offer that is completed. */
  predicate CompletesRestart(t: Transport, calls: Calls) {
    && !t.pc.closed && t.pc.gathering.Complete?
    && (t.state.Idle? || (t.pc.hasCurrentRemote && SetRemoteOutcome(t, true, calls).Ok?))
    && OfferOutcome(calls).Ok? && calls.wrote
  }

  /** An answer ends a Retry, with an offer that is completed. */
  predicate CompletesOwed(t: Transport, calls: Calls) {
    var outcome := SetRemoteOutcome(t, true, calls);
    && t.state.Retry? && (outcome.UnsupportedCodec? || (outcome.Ok? && calls.adds >= |t.remote.pending|))
    && OfferOutcome(calls).Ok? && calls.wrote
  }

  /** A remote offer is answered, and the answer is completed. */
  predicate CompletesAnswer(t: Transport, calls: Calls) {
    && SetRemoteDescription(t, false, calls).1.Applied?
    && calls.create.Ok? && calls.setLocal.Ok? && calls.wrote && calls.wroteMedia
  }

  /** Handling `e` completes a description other than the answer to an offer put off. */
  predicate Completes(t: Transport, e: Event) {
    match e
    case SendOffer(calls) => t.isOfferer && CompletesOffer(t, calls)
    case RemoteAnswer(calls) => CompletesOwed(t, calls)
    case RemoteOffer(restartsICE, calls) => !(restartsICE && t.pc.gathering.InProgress?) && CompletesAnswer(t, calls)
    case ICERestart(calls) => CompletesRestart(t, calls)
    case GatheringComplete(calls) => t.isOfferer && t.restarts.afterGathering && CompletesRestart(t, calls)
    case _ => false
  }

  /** A description for another exchange is completed while an offer is put off. */
  predicate Overtakes(t: Transport, e: Event) {
    t.restarts.pendingRemoteOffer.Some? && Completes(t, e)
  }

  /** Some held back candidates follow the description. */
  predicate SendsHeld(t: Transport, calls: Calls) {
    t.local.caching && t.local.cached != [] && calls.sends > 0
  }

  /** A local candidate leaves while a restart offer stays put off: at once, or behind a description
      that does not restart ICE itself. */
  predicate LeavesEarly(t: Transport, e: Event) {
    t.restarts.pendingRemoteOffer.Some? &&
    match e
    case LocalICECandidate(c, filtered, wrote) => !(c.Some? && filtered) && !t.local.caching && wrote
    case SendOffer(calls) => Completes(t, e) && !RestartsICE(t, false) && SendsHeld(t, calls)
    case RemoteAnswer(calls) => Completes(t, e) && !RestartsICE(t, false) && SendsHeld(t, calls)
    case RemoteOffer(_, calls) => Completes(t, e) && SendsHeld(t, calls)
    case _ => false
  }

  // ---------------------------------- descriptions and candidates counted

  function Candidates(log: seq<Output>): nat {
    if log == [] then 0
    else Candidates(log[..|log| - 1]) + if log[|log| - 1].LocalCandidate? then 1 else 0
  }

  /** `longer` has `d` more completed descriptions and `c` more candidates. */
  ghost predicate Tallies(log: seq<Output>, longer: seq<Output>, d: nat, c: nat) {
    Descriptions(longer) == Descriptions(log) + d && Candidates(longer) == Candidates(log) + c
  }

  function Released(local: LocalSide, calls: Calls): nat {
    if calls.wrote && local.caching then Min(calls.sends, |local.cached|) else 0
  }

  lemma EmitTallies(log: seq<Output>, o: Output)
    ensures Tallies(log, log + [o], if o.DescriptionSent? && o.done then 1 else 0, if o.LocalCandidate? then 1 else 0)
  {
    assert (log + [o])[..|log|] == log;
  }

  lemma {:induction false} CandidatesTally(log: seq<Output>, cs: seq<Option<Candidate>>)
    ensures Tallies(log, EmitCandidates(log, cs), 0, |cs|)
  {
    if cs != [] {
      CandidatesTally(log, cs[..|cs| - 1]);
      EmitTallies(EmitCandidates(log, cs[..|cs| - 1]), LocalCandidate(cs[|cs| - 1]));
    }
  }

  lemma SendTallies(t: Transport, n: nat, calls: Calls)
    ensures Tallies(t.log, SendDescription(t, n, calls).0.log, if calls.wrote then 1 else 0, Released(t.local, calls))
  {
    if calls.wrote {
      EmitTallies(t.log, DescriptionSent(n, true));
      if t.local.caching {
        CandidatesTally(t.log + [DescriptionSent(n, true)], t.local.cached[..Min(calls.sends, |t.local.cached|)]);
      }
    }
  }

  lemma BeginTallies(t: Transport, restart: bool)
    ensures var u := BeginOffer(t, restart);
            Tallies(t.log, u.log, 0, 0) && u.local == if restart then LocalSide(true, []) else t.local
  {
    EmitTallies(t.log, LocalCleared(t.exchanges));
  }

  lemma MakeTallies(t: Transport, restart: bool, calls: Calls)
    ensures var done := OfferOutcome(calls).Ok? && calls.wrote;
            Tallies(t.log, MakeOffer(t, restart, calls).0.log, if done then 1 else 0,
                    if done && !restart then Released(t.local, calls) else 0)
  {
    var begun := BeginOffer(t, restart);
    BeginTallies(t, restart);
    if OfferOutcome(calls).Ok? {
      var created := OfferExists(begun, restart);
      EmitTallies(begun.log, OfferCreated(restart));
      assert created.log == begun.log + [OfferCreated(restart)] && created.local == begun.local;
      SendTallies(created, t.exchanges, calls);
    }
  }

  lemma OfferTallies(t: Transport, iceRestart: bool, calls: Calls)
    ensures var done := CompletesOffer(t, calls);
            Tallies(t.log, CreateAndSendOffer(t, iceRestart, calls).0.log, if done then 1 else 0,
                    if done && !RestartsICE(t, iceRestart) then Released(t.local, calls) else 0)
  {
    if !t.pc.closed && t.state.Idle? { MakeTallies(t, RestartsICE(t, iceRestart), calls); }
  }

  lemma RestartTallies(t: Transport, calls: Calls)
    ensures Tallies(t.log, DoICERestart(t, calls).0.log, if CompletesRestart(t, calls) then 1 else 0, 0)
  {
    if !t.pc.closed && t.pc.gathering.Complete? {
      if t.state.Idle? {
        OfferTallies(t, true, calls);
      } else if t.pc.hasCurrentRemote && SetRemoteOutcome(t, true, calls).Ok? {
        EmitTallies(t.log, Recovered);
        OfferTallies(Recover(t), true, calls);
      }
    }
  }

  lemma OwedIff(t: Transport, calls: Calls)
    ensures var (u, result) := SetRemoteDescription(t, true, calls);
            && (CompletesOwed(t, calls) <==> !result.NotApplied? && u.state.Retry? && CompletesOffer(u.(state := Idle), calls))
            && u.local == t.local && u.restarts == t.restarts
  {
  }

  lemma AnswerTallies(t: Transport, calls: Calls)
    ensures var done := CompletesOwed(t, calls);
            Tallies(t.log, HandleRemoteAnswer(t, calls).0.log, if done then 1 else 0,
                    if done && !RestartsICE(t, false) then Released(t.local, calls) else 0)
  {
    var (u, result) := SetRemoteDescription(t, true, calls);
    EmitTallies(t.log, AnswerApplied);
    assert u.log == t.log || u.log == t.log + [AnswerApplied];
    OwedIff(t, calls);
    if !result.NotApplied? && u.state.Retry? {
      OfferTallies(u.(state := Idle), false, calls);
      assert HandleRemoteAnswer(t, calls) == CreateAndSendOffer(u.(state := Idle), false, calls);
    } else {
      assert HandleRemoteAnswer(t, calls).0.log == u.log;
    }
  }

  lemma AcceptTallies(t: Transport, n: nat, calls: Calls)
    ensures var done := CompletesAnswer(t, calls);
            Tallies(t.log, AcceptOffer(t, n, calls).0.log, if done then 1 else 0,
                    if done then Released(t.local, calls) else 0)
  {
    var (u, result) := SetRemoteDescription(t, false, calls);
    assert u.log == t.log && u.local == t.local;
    EmitTallies(t.log, DescriptionSent(n, false));
    SendTallies(u.(pc := u.pc.(hasLocal := true, hasCurrentRemote := true)), n, calls);
  }

  /** The guards say what the step completes and what leaves. */
  ghost predicate Guarded(t: Transport, e: Event) {
    && (Descriptions(Step(t, e).log) > Descriptions(t.log) <==> Overtakes(t, e))
    && (Candidates(Step(t, e).log) > Candidates(t.log) <==> LeavesEarly(t, e))
  }

  lemma OffersGuarded(t: Transport, calls: Calls)
    requires t.restarts.pendingRemoteOffer.Some?
    ensures Guarded(t, SendOffer(calls))
  {
    SendOfferTallies(t, calls);
  }

  lemma AnswersGuarded(t: Transport, calls: Calls)
    requires t.restarts.pendingRemoteOffer.Some?
    ensures Guarded(t, RemoteAnswer(calls))
  {
    AnswerTallies(t, calls);
    assert Step(t, RemoteAnswer(calls)).log == HandleRemoteAnswer(t, calls).0.log;
  }

  lemma RemoteOffersGuarded(t: Transport, restartsICE: bool, calls: Calls)
    requires t.restarts.pendingRemoteOffer.Some?
    ensures Guarded(t, RemoteOffer(restartsICE, calls))
  {
    RemoteOfferTallies(t, restartsICE, calls);
    assert Step(t, RemoteOffer(restartsICE, calls)).log == HandleRemoteOffer(t, restartsICE, calls).0.log;
  }

  lemma OtherGuarded(t: Transport, e: Event)
    requires e.LocalICECandidate? || e.RemoteICECandidate? || e.GatheringChanges? || e.AnswerTimeout? || e.Close?
    requires t.restarts.pendingRemoteOffer.Some?
    ensures Guarded(t, e)
  {
    if e.LocalICECandidate? {
      EmitTallies(t.log, LocalCandidate(e.local));
    } else {
      assert Step(t, e).log == t.log;
    }
  }

  /** While an offer stays put off, they do so for every step. */
  lemma StepGuarded(t: Transport, e: Event)
    requires t.restarts.pendingRemoteOffer.Some? && !(e.GatheringComplete? && !t.isOfferer)
    ensures Guarded(t, e)
  {
    match e
    case SendOffer(calls) => OffersGuarded(t, calls);
    case RemoteAnswer(calls) => AnswersGuarded(t, calls);
    case RemoteOffer(restartsICE, calls) => RemoteOffersGuarded(t, restartsICE, calls);
    case ICERestart(calls) => ICERestartTallies(t, calls);
    case GatheringComplete(calls) => GatheringTallies(t, calls);
    case _ => OtherGuarded(t, e);
  }

  lemma SendOfferTallies(t: Transport, calls: Calls)
    ensures var done := Completes(t, SendOffer(calls));
            Tallies(t.log, Step(t, SendOffer(calls)).log, if done then 1 else 0,
                    if done && !RestartsICE(t, false) then Released(t.local, calls) else 0)
  {
    OfferTallies(RequestOffer(t), false, calls);
  }

  lemma ICERestartTallies(t: Transport, calls: Calls)
    ensures Tallies(t.log, Step(t, ICERestart(calls)).log, if Completes(t, ICERestart(calls)) then 1 else 0, 0)
  {
    RestartTallies(RequestRestart(t), calls);
    assert SetRemoteOutcome(RequestRestart(t), true, calls) == SetRemoteOutcome(t, true, calls);
  }

  lemma GatheringTallies(t: Transport, calls: Calls)
    requires t.isOfferer
    ensures Tallies(t.log, Step(t, GatheringComplete(calls)).log, if Completes(t, GatheringComplete(calls)) then 1 else 0, 0)
  {
    var begun := t.(restarts := t.restarts.(afterGathering := false));
    RestartTallies(begun, calls);
    assert SetRemoteOutcome(begun, true, calls) == SetRemoteOutcome(t, true, calls);
  }

  lemma RemoteOfferTallies(t: Transport, restartsICE: bool, calls: Calls)
    requires t.restarts.pendingRemoteOffer.Some?
    ensures var done := Completes(t, RemoteOffer(restartsICE, calls));
            Tallies(t.log, HandleRemoteOffer(t, restartsICE, calls).0.log, if done then 1 else 0,
                    if done then Released(t.local, calls) else 0)
  {
    var numbered := t.(exchanges := t.exchanges + 1);
    assert ClearedFor(t, restartsICE) == numbered;
    assert SetRemoteOutcome(numbered, false, calls) == SetRemoteOutcome(t, false, calls);
    AcceptTallies(numbered, t.exchanges, calls);
  }

  /** The offer put off is taken up, by an answerer whose gathering ends, or stays. */
  lemma StaysPutOff(t: Transport, e: Event)
    requires Numbered(t) && t.restarts.pendingRemoteOffer.Some?
    ensures Step(t, e).restarts.pendingRemoteOffer.Some? <==> !(e.GatheringComplete? && !t.isOfferer)
  {
    if e.GatheringComplete? {
      if t.isOfferer && t.restarts.afterGathering {
        RestartProceeds(t.(restarts := t.restarts.(afterGathering := false)), e.calls);
      }
    } else if !e.LocalICECandidate? && !e.RemoteOffer? {
      StepProceeds(t, e);
    }
  }

  /** While an offer stays put off a step ends the hold exactly when it completes another description. */
  lemma HoldKeptIff(t: Transport, e: Event)
    requires Numbered(t) && Holding(t)
    ensures Holding(Step(t, e)) <==> !Overtakes(t, e)
  {
    if !e.LocalICECandidate? { StepOutline(t, e); }
    if t.restarts.pendingRemoteOffer.Some? {
      StaysPutOff(t, e);
      if !(e.GatheringComplete? && !t.isOfferer) { StepGuarded(t, e); }
    }
  }

  ghost predicate HoldsThroughout(start: Transport, es: seq<Event>) {
    Holding(Run(start, es)) && (es == [] || HoldsThroughout(start, es[..|es| - 1]))
  }

  ghost predicate NothingOvertakes(start: Transport, es: seq<Event>) {
    es == [] || (NothingOvertakes(start, es[..|es| - 1]) && !Overtakes(Run(start, es[..|es| - 1]), es[|es| - 1]))
  }

  lemma {:induction false} RunKeepsNumbers(isOfferer: bool, previousAnswer: bool, es: seq<Event>)
    ensures Numbered(Run(Start(isOfferer, previousAnswer), es))
  {
    if es != [] {
      RunKeepsNumbers(isOfferer, previousAnswer, es[..|es| - 1]);
      StepKeepsNumbers(Run(Start(isOfferer, previousAnswer), es[..|es| - 1]), es[|es| - 1]);
    }
  }

  /** In every run: local candidates are held at every point at which a restart offer is put off,
      exactly when no other description is completed while one is put off. */
  lemma {:induction false} HoldsIffNothingOvertakes(isOfferer: bool, previousAnswer: bool, es: seq<Event>)
    ensures HoldsThroughout(Start(isOfferer, previousAnswer), es)
            <==> NothingOvertakes(Start(isOfferer, previousAnswer), es)
  {
    if es != [] {
      var front, e := es[..|es| - 1], es[|es| - 1];
      HoldsIffNothingOvertakes(isOfferer, previousAnswer, front);
      RunKeepsNumbers(isOfferer, previousAnswer, front);
      if HoldsThroughout(Start(isOfferer, previousAnswer), front) {
        HoldKeptIff(Run(Start(isOfferer, previousAnswer), front), e);
      }
    }
  }

  // ------------------------------------------- until its own description

  lemma StepKeepsHeld(t: Transport, e: Event)
    requires Numbered(t) && WellHeld(t.log) && Held(t) && !Overtakes(t, e)
    ensures WellHeld(Step(t, e).log) && Held(Step(t, e))
  {
    if !e.LocalICECandidate? {
      StepOutline(t, e);
      if PutsOff(t, Step(t, e)) { NotLeaked(t.log, t.exchanges); }
      if t.restarts.pendingRemoteOffer.Some? {
        StaysPutOff(t, e);
        if !(e.GatheringComplete? && !t.isOfferer) { StepGuarded(t, e); }
      }
    }
  }

  lemma {:induction false} RunKeepsHeld(isOfferer: bool, previousAnswer: bool, es: seq<Event>)
    requires NothingOvertakes(Start(isOfferer, previousAnswer), es)
    ensures var t := Run(Start(isOfferer, previousAnswer), es); WellHeld(t.log) && Held(t)
  {
    if es != [] {
      var front := es[..|es| - 1];
      RunKeepsHeld(isOfferer, previousAnswer, front);
      RunKeepsNumbers(isOfferer, previousAnswer, front);
      StepKeepsHeld(Run(Start(isOfferer, previousAnswer), front), es[|es| - 1]);
    }
  }

  lemma {:induction false} LeakedAt(log: seq<Output>, n: nat, i: nat, j: nat)
    requires i < j < |log| && log[i] == LocalCleared(n) && log[j].LocalCandidate?
    ensures Leaked(log, n)
  {
    if j < |log| - 1 {
      LeakedAt(log[..|log| - 1], n, i, j);
    } else {
      assert log[..j][i] == LocalCleared(n);
    }
  }

  lemma {:induction false} WellHeldAt(log: seq<Output>, i: nat, j: nat, k: nat)
    requires WellHeld(log) && i < j < k < |log|
    requires log[i].LocalCleared? && log[j].LocalCandidate? && log[k].DescriptionSent?
    ensures log[i].exchange != log[k].exchange
  {
    if k < |log| - 1 {
      WellHeldAt(log[..|log| - 1], i, j, k);
    } else if log[i].exchange == log[k].exchange {
      LeakedAt(log[..k], log[k].exchange, i, j);
    }
  }

  /** Then no local candidate leaves between a clear for an ICE restart and the offer or answer
      that clear was made for. */
  lemma {:induction false} HeldUntilItsDescription(isOfferer: bool, previousAnswer: bool, es: seq<Event>, i: nat, j: nat, k: nat)
    requires NothingOvertakes(Start(isOfferer, previousAnswer), es)
    requires i < j < k < |Run(Start(isOfferer, previousAnswer), es).log|
    ensures var log := Run(Start(isOfferer, previousAnswer), es).log;
            log[i].LocalCleared? && log[k].DescriptionSent? && log[i].exchange == log[k].exchange ==> !log[j].LocalCandidate?
  {
    RunKeepsHeld(isOfferer, previousAnswer, es);
    var log := Run(Start(isOfferer, previousAnswer), es).log;
    if log[i].LocalCleared? && log[k].DescriptionSent? && log[j].LocalCandidate? { WellHeldAt(log, i, j, k); }
  }

  // ------------------------------------------------- when a candidate leaks

  lemma {:induction false} LeakedGrows(log: seq<Output>, longer: seq<Output>, n: nat)
    requires log <= longer && LocalCleared(n) in log
    ensures Leaked(longer, n) <==> Leaked(log, n) || Candidates(longer) > Candidates(log)
    ensures Candidates(longer) >= Candidates(log)
  {
    if |longer| > |log| {
      LeakedGrows(log, longer[..|longer| - 1], n);
      assert LocalCleared(n) in longer[..|longer| - 1];
    } else {
      assert longer == log;
    }
  }

  lemma {:induction false} WellHeldPrefix(log: seq<Output>, longer: seq<Output>)
    requires log <= longer && WellHeld(longer)
    ensures WellHeld(log)
  {
    if |longer| > |log| { WellHeldPrefix(log, longer[..|longer| - 1]); } else { assert longer == log; }
  }

  /** One has left since the offer was put off that still is. */
  ghost predicate HasLeft(start: Transport, es: seq<Event>) {
    && es != [] && Run(start, es).restarts.pendingRemoteOffer.Some?
    && (HasLeft(start, es[..|es| - 1]) || LeavesEarly(Run(start, es[..|es| - 1]), es[|es| - 1]))
  }

  /** The offer put off is answered. */
  predicate Answers(t: Transport, e: Event) {
    && t.restarts.pendingRemoteOffer.Some? && e.GatheringComplete? && !t.isOfferer
    && SetRemoteDescription(t, false, e.calls).1.Applied?
    && e.calls.create.Ok? && e.calls.setLocal.Ok? && e.calls.wrote
  }

  ghost predicate SomeAnsweredLate(start: Transport, es: seq<Event>) {
    es != [] &&
    (SomeAnsweredLate(start, es[..|es| - 1])
     || (HasLeft(start, es[..|es| - 1]) && Answers(Run(start, es[..|es| - 1]), es[|es| - 1])))
  }

  /** The description for `n` comes next in the log. */
  ghost predicate Describes(log: seq<Output>, longer: seq<Output>, n: nat) {
    && log <= longer && |log| < |longer|
    && longer[|log|].DescriptionSent? && longer[|log|].exchange == n
  }

  lemma SendLogs(t: Transport, n: nat, calls: Calls)
    requires calls.wrote
    ensures Describes(t.log, SendDescription(t, n, calls).0.log, n)
  {
    var sent := t.log + [DescriptionSent(n, true)];
    CandidatesAreNoDescriptions(sent, t.local.cached[..Min(calls.sends, |t.local.cached|)]);
    assert sent <= SendDescription(t, n, calls).0.log;
    assert sent[|t.log|] == DescriptionSent(n, true);
  }

  lemma CreateAnswerLogs(t: Transport, n: nat, calls: Calls)
    ensures var u := CreateAndSendAnswer(t, n, calls).0;
            if calls.create.Ok? && calls.setLocal.Ok? && calls.wrote then Describes(t.log, u.log, n) else u.log == t.log
  {
    if calls.wrote { SendLogs(t.(pc := t.pc.(hasLocal := true, hasCurrentRemote := true)), n, calls); }
  }

  /** Whatever has left by then, an answer to the offer put off is sent, or nothing is. */
  lemma AnswerLogs(t: Transport, calls: Calls)
    requires t.restarts.pendingRemoteOffer.Some? && !t.isOfferer
    ensures var u := Step(t, GatheringComplete(calls));
            if Answers(t, GatheringComplete(calls)) then Describes(t.log, u.log, t.restarts.pendingRemoteOffer.value)
            else u.log == t.log
  {
    var n, begun := t.restarts.pendingRemoteOffer.value, t.(restarts := t.restarts.(pendingRemoteOffer := None));
    var (v, result) := SetRemoteDescription(begun, false, calls);
    assert SetRemoteOutcome(begun, false, calls) == SetRemoteOutcome(t, false, calls);
    assert v.log == t.log && result == SetRemoteDescription(t, false, calls).1;
    CreateAnswerLogs(v, n, calls);
    assert HandleGatheringComplete(t, calls) == AcceptOffer(begun, n, calls);
  }

  /** A step sends a description too late exactly when it answers an offer put off with a candidate gone. */
  lemma StepHeldIff(t: Transport, e: Event)
    requires Numbered(t)
    ensures t.log <= Step(t, e).log
    ensures WellHeld(Step(t, e).log) <==> WellHeld(t.log) && !(Answers(t, e) && !Unleaked(t))
  {
    var u := Step(t, e);
    if e.LocalICECandidate? {
      assert u.log == t.log || u.log == t.log + [LocalCandidate(e.local)];
    } else {
      StepOutline(t, e);
      if WellHeld(u.log) { WellHeldPrefix(t.log, u.log); }
      if !Unleaked(t) && u.restarts.pendingRemoteOffer.None? { LateAnswer(t, e); }
    }
  }

  /** Only the end of gathering takes up the offer put off. */
  lemma LateAnswer(t: Transport, e: Event)
    requires Numbered(t) && !Unleaked(t) && Step(t, e).restarts.pendingRemoteOffer.None?
    ensures WellHeld(Step(t, e).log) <==> WellHeld(t.log) && !Answers(t, e)
  {
    StaysPutOff(t, e);
    var u, n := Step(t, e), t.restarts.pendingRemoteOffer.value;
    AnswerLogs(t, e.calls);
    if Answers(t, e) {
      var described := u.log[..|t.log| + 1];
      assert described[..|t.log|] == t.log && !WellHeld(described);
      if WellHeld(u.log) { WellHeldPrefix(described, u.log); }
    }
  }

  /** While an offer stays put off, a candidate has left exactly if one leaves or had left. */
  lemma StepLeaksIff(t: Transport, e: Event)
    requires Numbered(t) && Step(t, e).restarts.pendingRemoteOffer.Some?
    ensures !Unleaked(Step(t, e)) <==> !Unleaked(t) || LeavesEarly(t, e)
  {
    var u := Step(t, e);
    StepHeldIff(t, e);
    if !e.LocalICECandidate? { StepOutline(t, e); }
    var n := u.restarts.pendingRemoteOffer.value;
    if t.restarts.pendingRemoteOffer.Some? {
      LeakedGrows(t.log, u.log, n);
      StaysPutOff(t, e);
      StepGuarded(t, e);
    } else {
      NotLeaked(t.log, t.exchanges);
    }
  }

  lemma {:induction false} RunLeaksIff(isOfferer: bool, previousAnswer: bool, es: seq<Event>)
    ensures var start, t := Start(isOfferer, previousAnswer), Run(Start(isOfferer, previousAnswer), es);
            && (t.restarts.pendingRemoteOffer.Some? ==> (!Unleaked(t) <==> HasLeft(start, es)))
            && (WellHeld(t.log) <==> !SomeAnsweredLate(start, es))
  {
    if es != [] {
      var start, front, e := Start(isOfferer, previousAnswer), es[..|es| - 1], es[|es| - 1];
      var t := Run(start, front);
      RunLeaksIff(isOfferer, previousAnswer, front);
      RunKeepsNumbers(isOfferer, previousAnswer, front);
      StepHeldIff(t, e);
      if Step(t, e).restarts.pendingRemoteOffer.Some? { StepLeaksIff(t, e); }
    }
  }

  lemma {:induction false} NotLeakedAt(log: seq<Output>, n: nat)
    requires Leaked(log, n)
    ensures exists i, j :: 0 <= i < j < |log| && log[i] == LocalCleared(n) && log[j].LocalCandidate?
  {
    var front := log[..|log| - 1];
    if Leaked(front, n) {
      NotLeakedAt(front, n);
      var i, j :| 0 <= i < j < |front| && front[i] == LocalCleared(n) && front[j].LocalCandidate?;
      assert log[i] == LocalCleared(n) && log[j].LocalCandidate?;
    } else {
      var i :| 0 <= i < |front| && front[i] == LocalCleared(n);
      assert log[i] == LocalCleared(n) && log[|log| - 1].LocalCandidate?;
    }
  }

  /** Entry `j` is a candidate between the clear `i` and the description `k` the clear was for. */
  ghost predicate LeaksAt(log: seq<Output>, i: nat, j: nat, k: nat) {
    && i < j < k < |log| && log[i].LocalCleared? && log[j].LocalCandidate? && log[k].DescriptionSent?
    && log[i].exchange == log[k].exchange
  }

  lemma {:induction false} WellHeldIff(log: seq<Output>)
    ensures WellHeld(log) <==> forall i, j, k :: !LeaksAt(log, i, j, k)
  {
    if WellHeld(log) {
      forall i, j, k ensures !LeaksAt(log, i, j, k) {
        if LeaksAt(log, i, j, k) { WellHeldAt(log, i, j, k); }
      }
    } else {
      var front, last := log[..|log| - 1], |log| - 1;
      WellHeldIff(front);
      if !WellHeld(front) {
        var i, j, k :| LeaksAt(front, i, j, k);
        assert LeaksAt(log, i, j, k);
      } else {
        NotLeakedAt(front, log[last].exchange);
        var i, j :| 0 <= i < j < |front| && front[i] == LocalCleared(log[last].exchange) && front[j].LocalCandidate?;
        assert LeaksAt(log, i, j, last);
      }
    }
  }

  /** In every run: some local candidate leaves between a clear for an ICE restart and the offer or
      answer that clear was made for, exactly when one leaves while a restart offer is put off
      and that offer is then answered. */
  lemma {:induction false} LeaksIffAnsweredLate(isOfferer: bool, previousAnswer: bool, es: seq<Event>)
    ensures (exists i, j, k :: LeaksAt(Run(Start(isOfferer, previousAnswer), es).log, i, j, k))
            <==> SomeAnsweredLate(Start(isOfferer, previousAnswer), es)
  {
    RunLeaksIff(isOfferer, previousAnswer, es);
    WellHeldIff(Run(Start(isOfferer, previousAnswer), es).log);
  }

  /** And it does matter: once an answerer's hold is gone, the next candidate leaves before the
      answer its clear was made for. */
  lemma {:induction false} BrokenHoldLeaks(t: Transport, c: Candidate)
    requires Numbered(t) && t.restarts.pendingRemoteOffer.Some? && !t.local.caching
    requires !t.isOfferer && !t.pc.closed && !t.pc.offerOutstanding
    ensures var n := t.restarts.pendingRemoteOffer.value;
            var calls := AllOk.(adds := |t.remote.pending|);
            var u := Run(t, [LocalICECandidate(Some(c), false, true), GatheringComplete(calls)]);
            LocalCleared(n) in t.log && u.log == t.log + [LocalCandidate(Some(c)), DescriptionSent(n, true)]
  {
    var e0, e1 := LocalICECandidate(Some(c), false, true), GatheringComplete(AllOk.(adds := |t.remote.pending|));
    assert [e0, e1][..1] == [e0] && [e0][..0] == [];
    assert Run(t, [e0]) == Step(t, e0);
    assert Run(t, [e0, e1]) == Step(Step(t, e0), e1);
  }

  lemma {:induction false} RunAppend(t: Transport, es: seq<Event>, fs: seq<Event>)
    ensures Run(t, es + fs) == Run(Run(t, es), fs)
  {
    if fs == [] {
      assert es + fs == es;
    } else {
      RunAppend(t, es, fs[..|fs| - 1]);
      assert (es + fs)[..|es + fs| - 1] == es + fs[..|fs| - 1];
    }
  }

  lemma RunExtends(t: Transport, es: seq<Event>, e: Event)
    ensures Run(t, es + [e]) == Step(Run(t, es), e)
  {
    assert (es + [e])[..|es|] == es;
  }

  /** A first offer is answered, and gathering begins ... */
  const FirstExchange := [] + [RemoteOffer(false, AllOk)] + [GatheringChanges(InProgress)]

  /** ... then a restart offer is put off, and a later offer that restarts nothing is answered. */
  const Overtaking := FirstExchange + [RemoteOffer(true, AllOk)] + [RemoteOffer(false, AllOk)]

  const Connected := Connection(false, InProgress, false, true, true, true)

  lemma FirstAnswer(t: Transport)
    requires t.pc == Connection(false, NotStarted, false, false, false, false) && t.remote.pending == [] && !t.local.caching
    ensures var u := Step(t, RemoteOffer(false, AllOk));
            && u.pc == Connected.(gathering := NotStarted) && u.remote == t.remote && u.local == t.local
            && u.restarts == t.restarts && u.exchanges == t.exchanges + 1 && u.isOfferer == t.isOfferer
            && u.log == t.log + [DescriptionSent(t.exchanges, true)]
  {
    var n, cleared := t.exchanges, ClearedFor(t, false);
    var (accepted, result) := SetRemoteDescription(cleared, false, AllOk);
    assert result.Applied? && accepted.remote == t.remote;
  }

  lemma AfterFirstExchange()
    ensures var t := Run(Start(false, false), FirstExchange);
            && t.pc == Connected && t.remote.pending == [] && !t.local.caching && !t.isOfferer
            && t.restarts.pendingRemoteOffer.None? && t.exchanges == 1 && t.log == [DescriptionSent(0, true)]
  {
    var start, e0, e1 := Start(false, false), RemoteOffer(false, AllOk), GatheringChanges(InProgress);
    RunExtends(start, [], e0);
    FirstAnswer(start);
    RunExtends(start, [] + [e0], e1);
  }

  lemma AnswerEndsHold(t: Transport)
    requires t.pc == Connected && t.remote.pending == [] && t.local == LocalSide(true, []) && t.restarts.pendingRemoteOffer.Some?
    ensures var u := Step(t, RemoteOffer(false, AllOk));
            && u.pc == Connected && u.remote.pending == [] && !u.local.caching && u.isOfferer == t.isOfferer
            && u.restarts == t.restarts && u.log == t.log + [DescriptionSent(t.exchanges, true)]
  {
    var cleared := ClearedFor(t, false);
    var (accepted, result) := SetRemoteDescription(cleared, false, AllOk);
    assert result.Applied? && accepted.local == t.local;
  }

  lemma AfterOvertaking()
    ensures var t := Run(Start(false, false), Overtaking);
            && t.log == [DescriptionSent(0, true), LocalCleared(1), DescriptionSent(2, true)]
            && t.restarts.pendingRemoteOffer == Some(1)
            && !t.local.caching && !t.isOfferer && t.pc == Connected && t.remote.pending == []
  {
    AfterFirstExchange();
    var start, e2 := Start(false, false), RemoteOffer(true, AllOk);
    RunExtends(start, FirstExchange, e2);
    var t := Step(Run(start, FirstExchange), e2);
    assert t.log == [DescriptionSent(0, true), LocalCleared(1)] && t.restarts.pendingRemoteOffer == Some(1);
    AnswerEndsHold(t);
    RunExtends(start, FirstExchange + [e2], RemoteOffer(false, AllOk));
  }

  /** A run that does it: a candidate leaves after that, and before the answer to the offer put off. */
  lemma OvertakenHoldLeaks(c: Candidate)
    ensures Run(Start(false, false),
                Overtaking + [LocalICECandidate(Some(c), false, true), GatheringComplete(AllOk.(adds := 0))]).log
              == [DescriptionSent(0, true), LocalCleared(1), DescriptionSent(2, true), LocalCandidate(Some(c)), DescriptionSent(1, true)]
  {
    AfterOvertaking();
    RunKeepsNumbers(false, false, Overtaking);
    BrokenHoldLeaks(Run(Start(false, false), Overtaking), c);
    RunAppend(Start(false, false), Overtaking, [LocalICECandidate(Some(c), false, true), GatheringComplete(AllOk.(adds := 0))]);
  }
}
