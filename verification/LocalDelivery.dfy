/**
 No local candidate of a peer connection is lost (pkg/rtc/transport.go): while writes succeed,
 each that is met after a clear for an ICE restart is sent or still held back, in order.
 */
module LocalDelivery {
  import opened Negotiation
  import opened LocalCandidates
  import opened Wrappers

  /** The candidates that left after the latest clear. */
  function Left(log: seq<Output>): seq<Option<Candidate>> {
    if log == [] then []
    else
      var rest, last := Left(log[..|log| - 1]), log[|log| - 1];
      match last
      case LocalCleared(_) => []
      case LocalCandidate(c) => rest + [c]
      case _ => rest
  }

  function Clears(log: seq<Output>): nat {
    if log == [] then 0 else Clears(log[..|log| - 1]) + if log[|log| - 1].LocalCleared? then 1 else 0
  }

  /** The candidates that left, and those held back. */
  function Kept(t: Transport): seq<Option<Candidate>> { Left(t.log) + t.local.cached }

  /** Nothing is held back when nothing is to be. */
  predicate Tidy(t: Transport) { !t.local.caching ==> t.local.cached == [] }

  /** From `t` to `u` nothing is lost, but what came before a clear. */
  ghost predicate Conserves(t: Transport, u: Transport) {
    && Tidy(u) && Clears(t.log) <= Clears(u.log)
    && Kept(u) == (if Clears(t.log) < Clears(u.log) then [] else Kept(t))
  }

  /** Every candidate held back can be written. */
  predicate Enough(t: Transport, calls: Calls) { |t.local.cached| <= calls.sends }

  // -------------------------------------------------------------- handlers

  lemma EmitKeeps(t: Transport, o: Output)
    requires Tidy(t) && !o.LocalCandidate? && !o.LocalCleared?
    ensures Conserves(t, Emit(t, o)) && Clears(Emit(t, o).log) == Clears(t.log)
  {
    assert (t.log + [o])[..|t.log|] == t.log;
  }

  lemma LogAppend(log: seq<Output>, o: Output)
    ensures Left(log + [o]) == if o.LocalCleared? then [] else if o.LocalCandidate? then Left(log) + [o.c] else Left(log)
    ensures Clears(log + [o]) == Clears(log) + if o.LocalCleared? then 1 else 0
  {
    assert (log + [o])[..|log|] == log;
  }

  lemma {:induction false} CandidatesLeave(log: seq<Output>, cs: seq<Option<Candidate>>)
    ensures Left(EmitCandidates(log, cs)) == Left(log) + cs && Clears(EmitCandidates(log, cs)) == Clears(log)
  {
    if cs != [] {
      var front, c := cs[..|cs| - 1], cs[|cs| - 1];
      CandidatesLeave(log, front);
      LogAppend(EmitCandidates(log, front), LocalCandidate(c));
      assert cs == front + [c] && Left(log) + front + [c] == Left(log) + (front + [c]);
    }
  }

  lemma SendConserves(t: Transport, n: nat, calls: Calls)
    requires Tidy(t) && Enough(t, calls)
    ensures Conserves(t, SendDescription(t, n, calls).0)
    ensures calls.wrote ==> SendDescription(t, n, calls).0.local == LocalSide(false, [])
  {
    if calls.wrote {
      var sent, u := t.log + [DescriptionSent(n, true)], SendDescription(t, n, calls).0;
      LogAppend(t.log, DescriptionSent(n, true));
      if t.local.caching {
        assert t.local.cached[..|t.local.cached|] == t.local.cached;
        CandidatesLeave(sent, t.local.cached);
        assert u.log == EmitCandidates(sent, t.local.cached) && Left(u.log) + [] == Left(u.log);
      }
    }
  }

  lemma ClearConserves(t: Transport, n: nat)
    ensures var u := ClearLocalDescriptionSent(t, n);
            Conserves(t, u) && u.local == LocalSide(true, []) && Clears(u.log) == Clears(t.log) + 1
  {
    assert (t.log + [LocalCleared(n)])[..|t.log|] == t.log;
  }

  lemma BeginConserves(t: Transport, restart: bool)
    requires Tidy(t)
    ensures var u := BeginOffer(t, restart); Conserves(t, u) && |u.local.cached| <= |t.local.cached|
  {
    if restart { ClearConserves(t, t.exchanges); }
  }

  lemma MakeConserves(t: Transport, restart: bool, calls: Calls)
    requires Tidy(t) && Enough(t, calls)
    ensures Conserves(t, MakeOffer(t, restart, calls).0)
  {
    var begun := BeginOffer(t, restart);
    BeginConserves(t, restart);
    if OfferOutcome(calls).Ok? {
      var created := OfferExists(begun, restart);
      EmitKeeps(begun, OfferCreated(restart));
      assert created.log == Emit(begun, OfferCreated(restart)).log && created.local == begun.local;
      SendConserves(created, t.exchanges, calls);
    }
  }

  lemma OfferConserves(t: Transport, iceRestart: bool, calls: Calls)
    requires Tidy(t) && Enough(t, calls)
    ensures Conserves(t, CreateAndSendOffer(t, iceRestart, calls).0)
  {
    if !t.pc.closed && t.state.Idle? { MakeConserves(t, RestartsICE(t, iceRestart), calls); }
  }

  lemma DescriptionConserves(t: Transport, isAnswer: bool, calls: Calls)
    requires Tidy(t)
    ensures var u := SetRemoteDescription(t, isAnswer, calls).0;
            Conserves(t, u) && Clears(u.log) == Clears(t.log) && u.local == t.local
  {
    EmitKeeps(t, AnswerApplied);
    var u := SetRemoteDescription(t, isAnswer, calls).0;
    assert u.local == t.local && (u.log == t.log || u.log == Emit(t, AnswerApplied).log);
  }

  lemma AnswerConserves(t: Transport, calls: Calls)
    requires Tidy(t) && Enough(t, calls)
    ensures Conserves(t, HandleRemoteAnswer(t, calls).0)
  {
    DescriptionConserves(t, true, calls);
    var (u, result) := SetRemoteDescription(t, true, calls);
    if !result.NotApplied? && u.state.Retry? { OfferConserves(u.(state := Idle), false, calls); }
  }

  lemma RestartConserves(t: Transport, calls: Calls)
    requires Tidy(t) && Enough(t, calls)
    ensures Conserves(t, DoICERestart(t, calls).0)
  {
    if !t.pc.closed && t.pc.gathering.Complete? {
      if t.state.Idle? {
        OfferConserves(t, true, calls);
      } else if t.pc.hasCurrentRemote && SetRemoteOutcome(t, true, calls).Ok? {
        EmitKeeps(t, Recovered);
        assert Recover(t).log == Emit(t, Recovered).log && Recover(t).local == t.local;
        OfferConserves(Recover(t), true, calls);
      }
    }
  }

  lemma CreateAnswerConserves(t: Transport, n: nat, calls: Calls)
    requires Tidy(t) && Enough(t, calls)
    ensures Conserves(t, CreateAndSendAnswer(t, n, calls).0)
  {
    var answered, u := t.(pc := t.pc.(hasLocal := true, hasCurrentRemote := true)), CreateAndSendAnswer(t, n, calls).0;
    if !calls.create.Ok? || !calls.setLocal.Ok? {
      Untouched(t, u, u);
    } else if calls.wrote && !calls.wroteMedia {
      EmitKeeps(answered, DescriptionSent(n, false));
      Untouched(t, answered, u);
    } else {
      SendConserves(answered, n, calls);
      Untouched(t, answered, u);
    }
  }

  /** What is not in the log nor held back does not matter. */
  lemma Untouched(t: Transport, same: Transport, u: Transport)
    requires same.log == t.log && same.local == t.local && Tidy(t)
    ensures Conserves(same, u) ==> Conserves(t, u)
    ensures Conserves(t, same)
  {
  }

  lemma AcceptConserves(t: Transport, n: nat, calls: Calls)
    requires Tidy(t) && Enough(t, calls)
    ensures Conserves(t, AcceptOffer(t, n, calls).0)
  {
    DescriptionConserves(t, false, calls);
    var (u, result) := SetRemoteDescription(t, false, calls);
    if result.Applied? { CreateAnswerConserves(u, n, calls); }
  }

  lemma RemoteOfferConserves(t: Transport, restartsICE: bool, calls: Calls)
    requires Tidy(t) && Enough(t, calls)
    ensures Conserves(t, HandleRemoteOffer(t, restartsICE, calls).0)
  {
    var cleared := ClearedFor(t, restartsICE);
    ClearConserves(t, t.exchanges);
    assert Conserves(t, cleared) && |cleared.local.cached| <= |t.local.cached|;
    AcceptConserves(cleared, t.exchanges, calls);
  }

  lemma GatheringConserves(t: Transport, calls: Calls)
    requires Tidy(t) && Enough(t, calls)
    ensures Conserves(t, HandleGatheringComplete(t, calls).0)
  {
    if t.isOfferer && t.restarts.afterGathering {
      RestartConserves(t.(restarts := t.restarts.(afterGathering := false)), calls);
    } else if !t.isOfferer && t.restarts.pendingRemoteOffer.Some? {
      AcceptConserves(t.(restarts := t.restarts.(pendingRemoteOffer := None)), t.restarts.pendingRemoteOffer.value, calls);
    }
  }

  // ------------------------------------------------------------- over runs

  /** The writes of candidates in this step succeed. */
  predicate Writes(t: Transport, e: Event) {
    match e
    case LocalICECandidate(_, _, wrote) => wrote
    case SendOffer(calls) => Enough(t, calls)
    case RemoteAnswer(calls) => Enough(t, calls)
    case RemoteOffer(_, calls) => Enough(t, calls)
    case ICERestart(calls) => Enough(t, calls)
    case GatheringComplete(calls) => Enough(t, calls)
    case _ => true
  }

  ghost predicate AllWrites(start: Transport, es: seq<Event>) {
    es == [] || (AllWrites(start, es[..|es| - 1]) && Writes(Run(start, es[..|es| - 1]), es[|es| - 1]))
  }

  /** A candidate that is not filtered out; the end of gathering never is. */
  predicate Meets(e: Event) { e.LocalICECandidate? && (e.local.None? || !e.filtered) }

  /** The candidates met since the latest clear. */
  function Met(start: Transport, es: seq<Event>): seq<Option<Candidate>> {
    if es == [] then []
    else
      var rest, before, e := Met(start, es[..|es| - 1]), Run(start, es[..|es| - 1]), es[|es| - 1];
      if Clears(before.log) < Clears(Step(before, e).log) then []
      else if Meets(e) then rest + [e.local]
      else rest
  }

  lemma CandidateKept(t: Transport, e: Event)
    requires Tidy(t) && e.LocalICECandidate? && e.wrote
    ensures var u := Step(t, e);
            Tidy(u) && Clears(u.log) == Clears(t.log) && Kept(u) == if Meets(e) then Kept(t) + [e.local] else Kept(t)
  {
    var u := Step(t, e);
    if !Meets(e) {
      assert u == t;
    } else if t.local.caching {
      assert u.log == t.log && u.local.cached == t.local.cached + [e.local];
      assert Left(t.log) + (t.local.cached + [e.local]) == Left(t.log) + t.local.cached + [e.local];
    } else {
      LogAppend(t.log, LocalCandidate(e.local));
      assert u.log == t.log + [LocalCandidate(e.local)] && u.local == t.local && t.local.cached == [];
    }
  }

  lemma RequestConserves(t: Transport, e: Event)
    requires Tidy(t) && Writes(t, e) && (e.SendOffer? || e.ICERestart?)
    ensures Conserves(t, Step(t, e))
  {
    if e.SendOffer? { OfferConserves(RequestOffer(t), false, e.calls); } else { RestartConserves(RequestRestart(t), e.calls); }
  }

  lemma StepConserves(t: Transport, e: Event)
    requires Tidy(t) && Writes(t, e) && !e.LocalICECandidate?
    ensures Conserves(t, Step(t, e))
  {
    if e.SendOffer? || e.ICERestart? {
      RequestConserves(t, e);
    } else if e.RemoteAnswer? {
      AnswerConserves(t, e.calls);
    } else if e.RemoteOffer? {
      RemoteOfferConserves(t, e.restartsICE, e.calls);
    } else if e.GatheringComplete? {
      GatheringConserves(t, e.calls);
    } else {
      assert Step(t, e).log == t.log && Step(t, e).local == t.local;
    }
  }

  /** In every run whose writes of candidates succeed: those that left since the latest clear, followed
      by those held back, are exactly the unfiltered ones met since then, in order; and unless
      candidates are being held back, all of them have left. */
  lemma {:induction false} NoneLost(isOfferer: bool, previousAnswer: bool, es: seq<Event>)
    requires AllWrites(Start(isOfferer, previousAnswer), es)
    ensures var t := Run(Start(isOfferer, previousAnswer), es);
            && Left(t.log) + t.local.cached == Met(Start(isOfferer, previousAnswer), es)
            && (!t.local.caching ==> Left(t.log) == Met(Start(isOfferer, previousAnswer), es))
  {
    RunTidy(isOfferer, previousAnswer, es);
    var t := Run(Start(isOfferer, previousAnswer), es);
    if !t.local.caching { assert Left(t.log) + [] == Left(t.log); }
  }

  lemma {:induction false} RunTidy(isOfferer: bool, previousAnswer: bool, es: seq<Event>)
    requires AllWrites(Start(isOfferer, previousAnswer), es)
    ensures var t := Run(Start(isOfferer, previousAnswer), es); Tidy(t) && Kept(t) == Met(Start(isOfferer, previousAnswer), es)
  {
    if es != [] {
      var start, front, e := Start(isOfferer, previousAnswer), es[..|es| - 1], es[|es| - 1];
      RunTidy(isOfferer, previousAnswer, front);
      if e.LocalICECandidate? { CandidateKept(Run(start, front), e); } else { StepConserves(Run(start, front), e); }
    }
  }

  // --------------------------------------------------- what is completed

  /** A completed description releases all that was held back: it leaves behind the description, in
      order, as far as its writes succeed. */
  lemma DescriptionReleases(t: Transport, n: nat, calls: Calls)
    requires calls.wrote && Tidy(t)
    ensures var (u, ok) := SendDescription(t, n, calls);
            && u.local == LocalSide(false, [])
            && (ok <==> |t.local.cached| <= calls.sends)
            && |u.log| == |t.log| + 1 + Min(calls.sends, |t.local.cached|)
            && u.log[..|t.log| + 1] == t.log + [DescriptionSent(n, true)]
            && (forall i :: 0 <= i < Min(calls.sends, |t.local.cached|) ==> u.log[|t.log| + 1 + i] == LocalCandidate(t.local.cached[i]))
  {
    CandidatesFollow(t.log + [DescriptionSent(n, true)], t.local.cached[..Min(calls.sends, |t.local.cached|)]);
  }

  lemma AcceptEndsHold(t: Transport, n: nat, calls: Calls)
    ensures var u := AcceptOffer(t, n, calls).0; Descriptions(u.log) > Descriptions(t.log) ==> !u.local.caching
  {
    var (u, result) := SetRemoteDescription(t, false, calls);
    assert u.log == t.log;
    EmitTallies(t.log, DescriptionSent(n, false));
  }

  /** In every run: when a step completes a description nothing is held back any more. */
  lemma {:induction false} CompletedEndsHold(isOfferer: bool, previousAnswer: bool, es: seq<Event>, e: Event)
    requires AllWrites(Start(isOfferer, previousAnswer), es + [e])
    ensures var t := Run(Start(isOfferer, previousAnswer), es);
            Descriptions(Step(t, e).log) > Descriptions(t.log) ==> Step(t, e).local == LocalSide(false, [])
  {
    var start, t := Start(isOfferer, previousAnswer), Run(Start(isOfferer, previousAnswer), es);
    RunKeepsNumbers(isOfferer, previousAnswer, es);
    RunExtends(start, es, e);
    RunTidy(isOfferer, previousAnswer, es + [e]);
    CompletingEndsHold(t, e);
  }

  lemma CompletingEndsHold(t: Transport, e: Event)
    requires Numbered(t)
    ensures Descriptions(Step(t, e).log) > Descriptions(t.log) ==> !Step(t, e).local.caching
  {
    if e.LocalICECandidate? {
      EmitTallies(t.log, LocalCandidate(e.local));
    } else if t.restarts.pendingRemoteOffer.Some? && e.GatheringComplete? && !t.isOfferer {
      var n, begun := t.restarts.pendingRemoteOffer.value, t.(restarts := t.restarts.(pendingRemoteOffer := None));
      assert HandleGatheringComplete(t, e.calls) == AcceptOffer(begun, n, e.calls);
      AcceptEndsHold(begun, n, e.calls);
    } else {
      StepOutline(t, e);
      if t.restarts.pendingRemoteOffer.Some? { StaysPutOff(t, e); }
      assert Moves(t, Step(t, e));
    }
  }

  lemma {:induction false} CandidatesFollow(log: seq<Output>, cs: seq<Option<Candidate>>)
    ensures var longer := EmitCandidates(log, cs);
            && |longer| == |log| + |cs| && longer[..|log|] == log
            && (forall i :: 0 <= i < |cs| ==> longer[|log| + i] == LocalCandidate(cs[i]))
  {
    if cs != [] { CandidatesFollow(log, cs[..|cs| - 1]); }
  }
}
