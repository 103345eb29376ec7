/**
 The PCTransport object of pkg/rtc/transport.go, each handler tied to the function of
 Negotiation it performs, and the handling of one event to a step of its runs.
 */
module PeerTransport {
  import opened Negotiation
  import opened LocalCandidates
  import opened Wrappers

  /** What every run keeps. */
  ghost predicate Consistent(t: Transport) {
    Remembered(t) && LogInv(t) && IdleInv(t) && Numbered(t)
  }

  lemma StepKeepsConsistent(t: Transport, e: Event)
    requires Consistent(t)
    ensures Consistent(Step(t, e))
  {
    StepKeepsRemembered(t, e);
    StepKeepsLogInv(t, e);
    StepKeepsNumbers(t, e);
  }

  class PCTransport {
    const isOfferer: bool
    var negotiationState: NegotiationState
    var failed: bool
    var pc: Connection
    var previousAnswer: bool
    var restartAfterGathering: bool
    var restartAtNextOffer: bool
    var pendingRestartIceOffer: Option<nat>
    var cacheLocalCandidates: bool
    var cachedLocalCandidates: seq<Option<Candidate>>
    var pendingRemoteCandidates: seq<Candidate>
    /** Offers begun and remote offers received, and what was done. */
    var exchanges: nat
    var log: seq<Output>
    ghost var arrived: seq<Candidate>
    ghost var applied: seq<Candidate>
    ghost var owed: Owed

    constructor (isOfferer: bool, previousAnswer: bool)
      ensures State() == Start(isOfferer, previousAnswer)
    {
      this.isOfferer, this.previousAnswer := isOfferer, previousAnswer;
      negotiationState, failed, pc := Idle, false, Connection(false, NotStarted, false, false, false, false);
      restartAfterGathering, restartAtNextOffer, pendingRestartIceOffer := false, false, None;
      cacheLocalCandidates, cachedLocalCandidates, pendingRemoteCandidates := false, [], [];
      exchanges, log, arrived, applied, owed := 0, [], [], [], Owed(false, false);
    }

    ghost function State(): Transport
      reads this
    {
      Transport(isOfferer, negotiationState, failed, pc,
                Restarts(previousAnswer, restartAfterGathering, restartAtNextOffer, pendingRestartIceOffer),
                LocalSide(cacheLocalCandidates, cachedLocalCandidates),
                RemoteSide(pendingRemoteCandidates, arrived, applied), owed, exchanges, log)
    }

    method ClearLocalDescriptionSent(exchange: nat)
      modifies this
      ensures State() == Negotiation.ClearLocalDescriptionSent(old(State()), exchange)
    {
      cacheLocalCandidates := true;
      cachedLocalCandidates := [];
      log := log + [LocalCleared(exchange)];
    }

    method LocalDescriptionSent(sends: nat) returns (ok: bool)
      modifies this
      ensures (State(), ok) == Negotiation.LocalDescriptionSent(old(State()), sends)
    {
      if !cacheLocalCandidates {
        return true;
      }
      cacheLocalCandidates := false;
      var cached := cachedLocalCandidates;
      cachedLocalCandidates := [];
      var i := 0;
      while i < |cached|
        invariant i <= |cached| && i <= sends
        invariant State() == old(State()).(local := LocalSide(false, []), log := EmitCandidates(old(log), cached[..i]))
      {
        if i == sends {
          return false;
        }
        assert cached[..i + 1][..i] == cached[..i];
        log := log + [LocalCandidate(cached[i])];
        i := i + 1;
      }
      assert cached[..i] == cached;
      ok := true;
    }

    /** createAndSendOffer for one request. */
    method CreateAndSendOffer(iceRestart: bool, calls: Calls) returns (ok: bool)
      modifies this
      ensures (State(), ok) == Negotiation.CreateAndSendOffer(old(State()), iceRestart, calls)
    {
      if pc.closed {
        return true;
      }
      match negotiationState {
        case WaitingForRemote =>
          negotiationState := Retry;
          return true;
        case Retry =>
          return true;
        case Idle =>
      }
      var restart := iceRestart || previousAnswer || restartAtNextOffer;
      ok := MakeOffer(restart, calls);
    }

    method BeginOffer(restart: bool)
      modifies this
      ensures State() == Negotiation.BeginOffer(old(State()), restart)
    {
      previousAnswer := false;
      restartAtNextOffer := false;
      exchanges := exchanges + 1;
      if restart {
        ClearLocalDescriptionSent(exchanges - 1);
      }
    }

    method SendDescription(exchange: nat, calls: Calls) returns (ok: bool)
      modifies this
      ensures (State(), ok) == Negotiation.SendDescription(old(State()), exchange, calls)
    {
      if !calls.wrote {
        return false;
      }
      log := log + [DescriptionSent(exchange, true)];
      ok := LocalDescriptionSent(calls.sends);
    }

    method OfferCreated(restart: bool)
      modifies this
      ensures State() == OfferExists(old(State()), restart)
    {
      pc := pc.(offerOutstanding := true, hasLocal := true);
      negotiationState := WaitingForRemote;
      owed := Owed(false, owed.restart && !restart);
      log := log + [Output.OfferCreated(restart)];
    }

    /** The rest of createAndSendOffer, once no negotiation is going on. */
    method MakeOffer(restart: bool, calls: Calls) returns (ok: bool)
      modifies this
      ensures (State(), ok) == Negotiation.MakeOffer(old(State()), restart, calls)
    {
      BeginOffer(restart);
      if !calls.create.Ok? || !calls.setLocal.Ok? {
        if OfferOutcome(calls).ConnectionClosed? {
          pc := pc.(closed := true);
          return true;
        }
        return false;
      }
      OfferCreated(restart);
      ok := SendDescription(exchanges - 1, calls);
    }

    /** setRemoteDescription; the pending candidates follow the description. */
    method SetRemoteDescription(isAnswer: bool, calls: Calls) returns (result: RemoteResult)
      modifies this
      ensures (State(), result) == Negotiation.SetRemoteDescription(old(State()), isAnswer, calls)
    {
      var outcome := if pc.closed then ConnectionClosed
                     else if pc.offerOutstanding != isAnswer then Failed else calls.setRemote;
      if outcome.ConnectionClosed? {
        pc := pc.(closed := true);
        return Applied;
      }
      if outcome.Failed? {
        return NotApplied;
      }
      pc := pc.(hasRemote := true);
      if isAnswer {
        pc := pc.(hasCurrentRemote := true, offerOutstanding := false);
        log := log + [AnswerApplied];
      }
      if outcome.UnsupportedCodec? {
        return CodecRefused;
      }
      var ok := AddPendingRemoteCandidates(calls.adds);
      result := if ok then Applied else NotApplied;
    }

    method AddPendingRemoteCandidates(adds: nat) returns (ok: bool)
      modifies this
      ensures State() == old(State()).(remote := Flush(old(State()).remote, adds))
      ensures ok <==> |old(pendingRemoteCandidates)| <= adds
    {
      var i := 0;
      while i < |pendingRemoteCandidates|
        invariant i <= |pendingRemoteCandidates| && i <= adds
        invariant State() == old(State()).(remote := old(State()).remote.(applied := old(applied) + pendingRemoteCandidates[..i]))
      {
        if i == adds {
          return false;
        }
        assert pendingRemoteCandidates[..i + 1] == pendingRemoteCandidates[..i] + [pendingRemoteCandidates[i]];
        applied := applied + [pendingRemoteCandidates[i]];
        i := i + 1;
      }
      assert pendingRemoteCandidates[..i] == pendingRemoteCandidates;
      pendingRemoteCandidates := [];
      ok := true;
    }

    method HandleRemoteAnswerReceived(calls: Calls) returns (ok: bool)
      modifies this
      ensures (State(), ok) == HandleRemoteAnswer(old(State()), calls)
    {
      var result := SetRemoteDescription(true, calls);
      if result.NotApplied? {
        return false;
      }
      if negotiationState.Retry? {
        negotiationState := Idle;
        ok := CreateAndSendOffer(false, calls);
        return;
      }
      negotiationState := Idle;
      ok := true;
    }

    method DoICERestart(calls: Calls) returns (ok: bool)
      modifies this
      ensures (State(), ok) == Negotiation.DoICERestart(old(State()), calls)
    {
      if pc.closed {
        return true;
      }
      if pc.gathering.NotStarted? {
        return true;
      }
      if pc.gathering.InProgress? {
        restartAfterGathering := true;
        return true;
      }
      if negotiationState.Idle? {
        ok := CreateAndSendOffer(true, calls);
        return;
      }
      if !pc.hasCurrentRemote {
        if !pc.hasLocal {
          return false;
        }
        negotiationState := Retry;
        restartAtNextOffer := true;
        return calls.wrote;
      }
      if !(pc.offerOutstanding && calls.setRemote.Ok?) {
        return false;
      }
      Recover();
      ok := CreateAndSendOffer(true, calls);
    }

    /** The last answer is applied once more. */
    method Recover()
      modifies this
      ensures State() == Negotiation.Recover(old(State()))
    {
      pc := pc.(offerOutstanding := false);
      log := log + [Recovered];
      negotiationState := Idle;
    }

    method CreateAndSendAnswer(exchange: nat, calls: Calls) returns (ok: bool)
      modifies this
      ensures (State(), ok) == Negotiation.CreateAndSendAnswer(old(State()), exchange, calls)
    {
      if !calls.create.Ok? {
        if calls.create.ConnectionClosed? {
          pc := pc.(closed := true);
          return true;
        }
        return false;
      }
      if !calls.setLocal.Ok? {
        return false;
      }
      pc := pc.(hasLocal := true, hasCurrentRemote := true);
      if calls.wrote && !calls.wroteMedia {
        log := log + [DescriptionSent(exchange, false)];
        return false;
      }
      ok := SendDescription(exchange, calls);
    }

    /** Setting a remote offer and answering it. */
    method AcceptOffer(exchange: nat, calls: Calls) returns (ok: bool)
      modifies this
      ensures (State(), ok) == Negotiation.AcceptOffer(old(State()), exchange, calls)
    {
      var result := SetRemoteDescription(false, calls);
      if !result.Applied? {
        return false;
      }
      ok := CreateAndSendAnswer(exchange, calls);
    }

    method HandleRemoteOfferReceived(restartsICE: bool, calls: Calls) returns (ok: bool)
      modifies this
      ensures (State(), ok) == HandleRemoteOffer(old(State()), restartsICE, calls)
    {
      var exchange := exchanges;
      exchanges := exchanges + 1;
      if restartsICE && pendingRestartIceOffer.None? {
        ClearLocalDescriptionSent(exchange);
      }
      if restartsICE && pc.gathering.InProgress? {
        if pendingRestartIceOffer.None? {
          pendingRestartIceOffer := Some(exchange);
        }
        return true;
      }
      ok := AcceptOffer(exchange, calls);
    }

    method HandleICEGatheringComplete(calls: Calls) returns (ok: bool)
      modifies this
      ensures (State(), ok) == HandleGatheringComplete(old(State()), calls)
    {
      if isOfferer {
        if !restartAfterGathering {
          return true;
        }
        restartAfterGathering := false;
        ok := DoICERestart(calls);
        return;
      }
      if pendingRestartIceOffer.None? {
        return true;
      }
      var exchange := pendingRestartIceOffer.value;
      pendingRestartIceOffer := None;
      ok := AcceptOffer(exchange, calls);
    }

    method HandleSendOffer(calls: Calls) returns (ok: bool)
      modifies this
      ensures (State(), ok) == Handle(old(State()), SendOffer(calls))
    {
      if !isOfferer {
        return calls.wroteMedia;
      }
      owed := owed.(offer := true);
      ok := CreateAndSendOffer(false, calls);
    }

    method HandleICERestart(calls: Calls) returns (ok: bool)
      modifies this
      ensures (State(), ok) == Handle(old(State()), ICERestart(calls))
    {
      owed := owed.(restart := owed.restart || !pc.gathering.NotStarted?);
      ok := DoICERestart(calls);
    }

    method HandleLocalICECandidate(c: Option<Candidate>, filtered: bool, wrote: bool) returns (ok: bool)
      modifies this
      ensures (State(), ok) == HandleLocalCandidate(old(State()), c, filtered, wrote)
    {
      if c.Some? && filtered {
        return true;
      }
      if cacheLocalCandidates {
        cachedLocalCandidates := cachedLocalCandidates + [c];
        return true;
      }
      if !wrote {
        return false;
      }
      log := log + [LocalCandidate(c)];
      ok := true;
    }

    method HandleRemoteICECandidate(c: Candidate, filtered: bool, add: AddOutcome) returns (ok: bool)
      modifies this
      ensures (State(), ok) == HandleRemoteCandidate(old(State()), c, filtered, add)
    {
      if filtered {
        return true;
      }
      arrived := arrived + [c];
      if !pc.hasRemote {
        pendingRemoteCandidates := pendingRemoteCandidates + [c];
        return true;
      }
      if !add.Added? {
        return add.UnparsableAddress?;
      }
      applied := applied + [c];
      ok := true;
    }

    /** What the handler of one queued event returns. */
    method Dispatch(e: Event) returns (ok: bool)
      requires !e.GatheringChanges? && !e.AnswerTimeout? && !e.Close?
      modifies this
      ensures (State(), ok) == Handle(old(State()), e)
    {
      match e {
        case SendOffer(calls) => ok := HandleSendOffer(calls);
        case RemoteAnswer(calls) => ok := HandleRemoteAnswerReceived(calls);
        case RemoteOffer(restartsICE, calls) => ok := HandleRemoteOfferReceived(restartsICE, calls);
        case ICERestart(calls) => ok := HandleICERestart(calls);
        case GatheringComplete(calls) => ok := HandleICEGatheringComplete(calls);
        case LocalICECandidate(c, filtered, wrote) => ok := HandleLocalICECandidate(c, filtered, wrote);
        case RemoteICECandidate(c, filtered, add) => ok := HandleRemoteICECandidate(c, filtered, add);
      }
    }

    /** One turn of the event queue: a step of the runs, with all that they keep. */
    method ProcessEvent(e: Event)
      requires !e.GatheringChanges? && !e.AnswerTimeout? && !e.Close?
      modifies this
      ensures State() == Step(old(State()), e)
      ensures old(Consistent(State())) ==> Consistent(State())
    {
      ghost var before := State();
      var ok := Dispatch(e);
      if !ok {
        failed := true;
      }
      if Consistent(before) { StepKeepsConsistent(before, e); }
    }
  }
}
