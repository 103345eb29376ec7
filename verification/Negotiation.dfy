/**
 Offer/answer negotiation of one peer connection (pkg/rtc/transport.go): the negotiation
 state machine with deferred renegotiation and ICE restarts, and the local and remote
 candidates held back around it.
 */
module Negotiation {
  import opened Wrappers

  // Every handler runs on one event queue, so each event is one step.  The peer connection
  // itself is reduced to what the handlers ask of it: is it closed, is it gathering, is an
  // offer outstanding, which descriptions are set, and how each call ends.

  datatype Candidate = Candidate(value: string)

  datatype NegotiationState = Idle | WaitingForRemote | Retry
  datatype Gathering = NotStarted | InProgress | Complete

  datatype Outcome = Ok | ConnectionClosed | UnsupportedCodec | Failed

  /** How the calls made while handling one event end: `adds` remote candidates are added
      before one is rejected, `sends` local ones are written before one is not. */
  datatype Calls = Calls(
    create: Outcome,
    setLocal: Outcome,
    setRemote: Outcome,
    wrote: bool,
    wroteMedia: bool,
    adds: nat,
    sends: nat)

  /** What the transport did, oldest first.  `Recovered` is the last answer applied again.  A clear
      and a description carry the number of the offer or answer they are for; `done` says that
      the description was followed by the release of the held back candidates. */
  datatype Output =
    | OfferCreated(iceRestart: bool)
    | AnswerApplied
    | Recovered
    | LocalCleared(exchange: nat)
    | DescriptionSent(exchange: nat, done: bool)
    | LocalCandidate(c: Option<Candidate>)

  /** The peer connection. */
  datatype Connection = Connection(
    closed: bool,
    gathering: Gathering,
    offerOutstanding: bool,
    hasLocal: bool,
    hasRemote: bool,
    hasCurrentRemote: bool)

  /** Reasons for the next offer, or the next accepted one, to restart ICE; the remote offer put
      off until gathering ends is known by its number. */
  datatype Restarts = Restarts(
    previousAnswer: bool,
    afterGathering: bool,
    atNextOffer: bool,
    pendingRemoteOffer: Option<nat>)

  /** cacheLocalCandidates and cachedLocalCandidates */
  datatype LocalSide = LocalSide(caching: bool, cached: seq<Option<Candidate>>)

  /** `arrived` are the remote candidates that passed the filter, `applied` those handed to
      the connection. */
  datatype RemoteSide = RemoteSide(pending: seq<Candidate>, arrived: seq<Candidate>, applied: seq<Candidate>)

  /** `offer`: an offer was requested after the latest created one.  `restart`: an ICE
      restart was requested after the latest offer that restarts ICE. */
  datatype Owed = Owed(offer: bool, restart: bool)

  /** `exchanges` counts the offers begun and the remote offers received. */
  datatype Transport = Transport(
    isOfferer: bool,
    state: NegotiationState,
    failed: bool,
    pc: Connection,
    restarts: Restarts,
    local: LocalSide,
    remote: RemoteSide,
    owed: Owed,
    exchanges: nat,
    log: seq<Output>)

  function Start(isOfferer: bool, previousAnswer: bool): Transport {
    Transport(isOfferer, Idle, false, Connection(false, NotStarted, false, false, false, false),
              Restarts(previousAnswer, false, false, None), LocalSide(false, []), RemoteSide([], [], []),
              Owed(false, false), 0, [])
  }

  // ------------------------------------------------------------- handlers
  // The second component of a result is false when the handler returns an error.

  function Emit(t: Transport, o: Output): Transport { t.(log := t.log + [o]) }

  function ClearLocalDescriptionSent(t: Transport, exchange: nat): Transport {
    Emit(t.(local := LocalSide(true, [])), LocalCleared(exchange))
  }

  function EmitCandidates(log: seq<Output>, cs: seq<Option<Candidate>>): seq<Output> {
    if cs == [] then log else EmitCandidates(log, cs[..|cs| - 1]) + [LocalCandidate(cs[|cs| - 1])]
  }

  function LocalDescriptionSent(t: Transport, sends: nat): (r: (Transport, bool))
    ensures r.0 == t.(local := r.0.local, log := r.0.log)
  {
    if !t.local.caching then (t, true)
    else
      var n := Min(sends, |t.local.cached|);
      (t.(local := LocalSide(false, []), log := EmitCandidates(t.log, t.local.cached[..n])), n == |t.local.cached|)
  }

  /** The handler writes the local description, and what was held back for it follows. */
  function SendDescription(t: Transport, exchange: nat, calls: Calls): (r: (Transport, bool))
    ensures r.0 == t.(local := r.0.local, log := r.0.log)
  {
    if !calls.wrote then (t, false) else LocalDescriptionSent(Emit(t, DescriptionSent(exchange, true)), calls.sends)
  }

  predicate RestartsICE(t: Transport, asked: bool) {
    asked || t.restarts.previousAnswer || t.restarts.atNextOffer
  }

  /** The offer is prepared: the reasons to restart ICE are used up. */
  function BeginOffer(t: Transport, restart: bool): (r: Transport)
    ensures r == t.(restarts := t.restarts.(previousAnswer := false, atNextOffer := false),
                    exchanges := t.exchanges + 1, local := r.local, log := r.log)
  {
    var begun := t.(restarts := t.restarts.(previousAnswer := false, atNextOffer := false), exchanges := t.exchanges + 1);
    if restart then ClearLocalDescriptionSent(begun, t.exchanges) else begun
  }

  /** The offer exists and is the local description. */
  function OfferExists(t: Transport, restart: bool): Transport {
    Emit(t.(state := WaitingForRemote,
            pc := t.pc.(offerOutstanding := true, hasLocal := true),
            owed := Owed(false, t.owed.restart && !restart)),
         OfferCreated(restart))
  }

  function PCClosed(t: Transport): Transport { t.(pc := t.pc.(closed := true)) }

  /** CreateOffer and then SetLocalDescription, whose errors are treated alike. */
  function OfferOutcome(calls: Calls): Outcome { if calls.create.Ok? then calls.setLocal else calls.create }

  function MakeOffer(t: Transport, restart: bool, calls: Calls): (r: (Transport, bool))
    ensures r.0.remote == t.remote && r.0.pc.hasRemote == t.pc.hasRemote
    ensures r.0.restarts.afterGathering == t.restarts.afterGathering && r.0.pc.gathering == t.pc.gathering
    ensures match OfferOutcome(calls)
            case Ok => r.0.state.WaitingForRemote? && r.0.owed == Owed(false, t.owed.restart && !restart)
            case ConnectionClosed => r.0.pc.closed
            case _ => !r.1
  {
    var begun := BeginOffer(t, restart);
    match OfferOutcome(calls)
    case Ok => SendDescription(OfferExists(begun, restart), t.exchanges, calls)
    case ConnectionClosed => (PCClosed(begun), true)
    case _ => (begun, false)
  }

  function CreateAndSendOffer(t: Transport, iceRestart: bool, calls: Calls): (r: (Transport, bool))
    ensures r.0.remote == t.remote && r.0.pc.hasRemote == t.pc.hasRemote
    ensures r.0.restarts.afterGathering == t.restarts.afterGathering && r.0.pc.gathering == t.pc.gathering
  {
    if t.pc.closed then (t, true)
    else match t.state
      case WaitingForRemote => (t.(state := Retry), true)
      case Retry => (t, true)
      case Idle => MakeOffer(t, RestartsICE(t, iceRestart), calls)
  }

  datatype RemoteResult = Applied | CodecRefused | NotApplied

  /** A connection accepts an answer only while its own offer is outstanding, and an offer
      only while none is. */
  function SetRemoteOutcome(t: Transport, isAnswer: bool, calls: Calls): Outcome {
    if t.pc.closed then ConnectionClosed
    else if t.pc.offerOutstanding != isAnswer then Failed
    else calls.setRemote
  }

  function RemoteSet(t: Transport, isAnswer: bool): Transport {
    if isAnswer then
      Emit(t.(pc := t.pc.(hasRemote := true, hasCurrentRemote := true, offerOutstanding := false)), AnswerApplied)
    else t.(pc := t.pc.(hasRemote := true))
  }

  /** The pending candidates are handed over up to the first rejected one; only a complete
      flush empties the list. */
  function Flush(r: RemoteSide, adds: nat): RemoteSide {
    var n := Min(adds, |r.pending|);
    r.(applied := r.applied + r.pending[..n], pending := if n < |r.pending| then r.pending else [])
  }

  function SetRemoteDescription(t: Transport, isAnswer: bool, calls: Calls): (r: (Transport, RemoteResult))
    ensures r.0 == t.(pc := r.0.pc, remote := r.0.remote, log := r.0.log)
    ensures r.0.pc.gathering == t.pc.gathering && (t.pc.closed ==> r.0.pc.closed)
  {
    match SetRemoteOutcome(t, isAnswer, calls)
    case ConnectionClosed => (PCClosed(t), Applied)
    case Failed => (t, NotApplied)
    case UnsupportedCodec => (RemoteSet(t, isAnswer), CodecRefused)
    case Ok =>
      (RemoteSet(t, isAnswer).(remote := Flush(t.remote, calls.adds)),
       if calls.adds < |t.remote.pending| then NotApplied else Applied)
  }

  function HandleRemoteAnswer(t: Transport, calls: Calls): (Transport, bool) {
    var (answered, result) := SetRemoteDescription(t, true, calls);
    if result.NotApplied? then (answered, false)
    else if answered.state.Retry? then CreateAndSendOffer(answered.(state := Idle), false, calls)
    else (answered.(state := Idle), true)
  }

  /** The last answer is applied again to leave the current exchange. */
  function Recover(t: Transport): Transport {
    Emit(t.(state := Idle, pc := t.pc.(offerOutstanding := false)), Recovered)
  }

  function DoICERestart(t: Transport, calls: Calls): (Transport, bool) {
    if t.pc.closed || t.pc.gathering.NotStarted? then (t, true)
    else if t.pc.gathering.InProgress? then (t.(restarts := t.restarts.(afterGathering := true)), true)
    else if t.state.Idle? then CreateAndSendOffer(t, true, calls)
    else if !t.pc.hasCurrentRemote then
      if !t.pc.hasLocal then (t, false)
      else (t.(state := Retry, restarts := t.restarts.(atNextOffer := true)), calls.wrote)
    else if SetRemoteOutcome(t, true, calls).Ok? then CreateAndSendOffer(Recover(t), true, calls)
    else (t, false)
  }

  function CreateAndSendAnswer(t: Transport, exchange: nat, calls: Calls): (r: (Transport, bool))
    ensures r.0 == t.(pc := r.0.pc, local := r.0.local, log := r.0.log)
    ensures r.0.pc == t.pc.(closed := r.0.pc.closed, hasLocal := r.0.pc.hasLocal, hasCurrentRemote := r.0.pc.hasCurrentRemote)
    ensures t.pc.closed ==> r.0.pc.closed
  {
    if calls.create.ConnectionClosed? then (PCClosed(t), true)
    else if !calls.create.Ok? || !calls.setLocal.Ok? then (t, false)
    else
      var answered := t.(pc := t.pc.(hasLocal := true, hasCurrentRemote := true));
      if calls.wrote && !calls.wroteMedia then (Emit(answered, DescriptionSent(exchange, false)), false)
      else SendDescription(answered, exchange, calls)
  }

  function AcceptOffer(t: Transport, exchange: nat, calls: Calls): (r: (Transport, bool))
    ensures r.0 == t.(pc := r.0.pc, remote := r.0.remote, local := r.0.local, log := r.0.log)
    ensures r.0.pc.gathering == t.pc.gathering && (t.pc.closed ==> r.0.pc.closed)
  {
    var (accepted, result) := SetRemoteDescription(t, false, calls);
    if result.Applied? then CreateAndSendAnswer(accepted, exchange, calls) else (accepted, false)
  }

  /** The remote offer gets the next number; one that restarts ICE clears unless one is put off. */
  function ClearedFor(t: Transport, restartsICE: bool): (r: Transport)
    ensures r == t.(local := r.local, log := r.log, exchanges := t.exchanges + 1)
  {
    var numbered := t.(exchanges := t.exchanges + 1);
    if restartsICE && t.restarts.pendingRemoteOffer.None? then ClearLocalDescriptionSent(numbered, t.exchanges) else numbered
  }

  /** An offer that replaces the one put off takes over its number, and so its clear. */
  function HandleRemoteOffer(t: Transport, restartsICE: bool, calls: Calls): (Transport, bool) {
    var cleared := ClearedFor(t, restartsICE);
    if restartsICE && t.pc.gathering.InProgress? then
      var putOff := if t.restarts.pendingRemoteOffer.Some? then t.restarts.pendingRemoteOffer else Some(t.exchanges);
      (cleared.(restarts := cleared.restarts.(pendingRemoteOffer := putOff)), true)
    else AcceptOffer(cleared, t.exchanges, calls)
  }

  function HandleGatheringComplete(t: Transport, calls: Calls): (Transport, bool) {
    if t.isOfferer && t.restarts.afterGathering then
      DoICERestart(t.(restarts := t.restarts.(afterGathering := false)), calls)
    else if !t.isOfferer && t.restarts.pendingRemoteOffer.Some? then
      AcceptOffer(t.(restarts := t.restarts.(pendingRemoteOffer := None)), t.restarts.pendingRemoteOffer.value, calls)
    else (t, true)
  }

  function HandleLocalCandidate(t: Transport, c: Option<Candidate>, filtered: bool, wrote: bool): (Transport, bool) {
    if c.Some? && filtered then (t, true)
    else if t.local.caching then (t.(local := t.local.(cached := t.local.cached + [c])), true)
    else if wrote then (Emit(t, LocalCandidate(c)), true)
    else (t, false)
  }

  datatype AddOutcome = Added | UnparsableAddress | Rejected

  function HandleRemoteCandidate(t: Transport, c: Candidate, filtered: bool, add: AddOutcome): (Transport, bool) {
    if filtered then (t, true)
    else
      var r := t.remote.(arrived := t.remote.arrived + [c]);
      if !t.pc.hasRemote then (t.(remote := r.(pending := r.pending + [c])), true)
      else if add.Added? then (t.(remote := r.(applied := r.applied + [c])), true)
      else (t.(remote := r), add.UnparsableAddress?)
  }

  // ---------------------------------------------------------------- runs

  datatype Event =
    | SendOffer(calls: Calls)
    | RemoteAnswer(calls: Calls)
    | RemoteOffer(restartsICE: bool, calls: Calls)
    | ICERestart(calls: Calls)
    | GatheringComplete(calls: Calls)
    | LocalICECandidate(local: Option<Candidate>, filtered: bool, wrote: bool)
    | RemoteICECandidate(remote: Candidate, filtered: bool, add: AddOutcome)
    | GatheringChanges(g: Gathering)
    | AnswerTimeout
    | Close

  /** A request for an offer, and one for an ICE restart, which is skipped before gathering. */
  function RequestOffer(t: Transport): Transport { t.(owed := t.owed.(offer := true)) }
  function RequestRestart(t: Transport): Transport {
    t.(owed := t.owed.(restart := t.owed.restart || !t.pc.gathering.NotStarted?))
  }

  function Handle(t: Transport, e: Event): (Transport, bool) {
    match e
    case SendOffer(calls) =>
      if t.isOfferer then CreateAndSendOffer(RequestOffer(t), false, calls) else (t, calls.wroteMedia)
    case RemoteAnswer(calls) => HandleRemoteAnswer(t, calls)
    case RemoteOffer(restartsICE, calls) => HandleRemoteOffer(t, restartsICE, calls)
    case ICERestart(calls) => DoICERestart(RequestRestart(t), calls)
    case GatheringComplete(calls) => HandleGatheringComplete(t, calls)
    case LocalICECandidate(c, filtered, wrote) => HandleLocalCandidate(t, c, filtered, wrote)
    case RemoteICECandidate(c, filtered, add) => HandleRemoteCandidate(t, c, filtered, add)
    case GatheringChanges(g) => (if g.NotStarted? then t else t.(pc := t.pc.(gathering := g)), true)
    case AnswerTimeout => (t, t.state.Idle?)
    case Close => (PCClosed(t), true)
  }

  /** An error ends in onNegotiationFailed. */
  function Settle(r: (Transport, bool)): Transport { if r.1 then r.0 else r.0.(failed := true) }

  function Step(t: Transport, e: Event): Transport { Settle(Handle(t, e)) }

  function Run(t: Transport, es: seq<Event>): Transport {
    if es == [] then t else Step(Run(t, es[..|es| - 1]), es[|es| - 1])
  }

  // --------------------------------------------------- no request is lost

  ghost predicate RestartPending(t: Transport) {
    t.restarts.afterGathering || (t.restarts.atNextOffer && t.state.Retry?) || t.failed || t.pc.closed
  }

  /** A requested offer or ICE restart that has not been created yet is remembered. */
  ghost predicate Remembered(t: Transport) {
    && (t.owed.offer ==> t.state.Retry? || t.failed || t.pc.closed)
    && (t.owed.restart ==> RestartPending(t))
    && (t.restarts.afterGathering ==> !t.pc.gathering.NotStarted?)
  }

  lemma OfferRemembers(t: Transport, iceRestart: bool, calls: Calls)
    requires t.restarts.afterGathering ==> !t.pc.gathering.NotStarted?
    requires t.owed.restart ==> RestartPending(t) || (t.state.Idle? && RestartsICE(t, iceRestart))
    ensures Remembered(Settle(CreateAndSendOffer(t, iceRestart, calls)))
  {
  }

  lemma RestartRemembers(t: Transport, calls: Calls)
    requires Remembered(t.(owed := t.owed.(restart := false)))
    requires t.owed.restart ==> RestartPending(t) || !t.pc.gathering.NotStarted?
    ensures Remembered(Settle(DoICERestart(t, calls)))
  {
    if !t.pc.closed && t.pc.gathering.Complete? {
      if t.state.Idle? {
        OfferRemembers(t, true, calls);
      } else if t.pc.hasCurrentRemote && SetRemoteOutcome(t, true, calls).Ok? {
        OfferRemembers(Recover(t), true, calls);
      }
    }
  }

  lemma AnswerRemembers(t: Transport, calls: Calls)
    requires Remembered(t)
    ensures Remembered(Settle(HandleRemoteAnswer(t, calls)))
  {
    var (u, result) := SetRemoteDescription(t, true, calls);
    assert u.owed == t.owed && u.restarts == t.restarts && u.state == t.state && u.failed == t.failed;
  }

  lemma RemoteOfferRemembers(t: Transport, restartsICE: bool, calls: Calls)
    requires Remembered(t)
    ensures Remembered(Settle(HandleRemoteOffer(t, restartsICE, calls)))
  {
  }

  lemma GatheringRemembers(t: Transport, calls: Calls)
    requires Remembered(t)
    ensures Remembered(Settle(HandleGatheringComplete(t, calls)))
  {
    if t.isOfferer && t.restarts.afterGathering {
      RestartRemembers(t.(restarts := t.restarts.(afterGathering := false)), calls);
    }
  }

  lemma RequestsRemember(t: Transport, e: Event)
    requires Remembered(t) && (e.SendOffer? || e.ICERestart?)
    ensures Remembered(Step(t, e))
  {
    if e.SendOffer? {
      OfferRemembers(RequestOffer(t), false, e.calls);
    } else {
      RestartRemembers(RequestRestart(t), e.calls);
    }
  }

  lemma DescriptionsRemember(t: Transport, e: Event)
    requires Remembered(t) && (e.RemoteAnswer? || e.RemoteOffer? || e.GatheringComplete?)
    ensures Remembered(Step(t, e))
  {
    if e.RemoteAnswer? {
      AnswerRemembers(t, e.calls);
    } else if e.RemoteOffer? {
      RemoteOfferRemembers(t, e.restartsICE, e.calls);
    } else {
      GatheringRemembers(t, e.calls);
    }
  }

  lemma StepKeepsRemembered(t: Transport, e: Event)
    requires Remembered(t)
    ensures Remembered(Step(t, e))
  {
    if e.SendOffer? || e.ICERestart? {
      RequestsRemember(t, e);
    } else if e.RemoteAnswer? || e.RemoteOffer? || e.GatheringComplete? {
      DescriptionsRemember(t, e);
    }
  }

  lemma {:induction false} RunKeepsRemembered(t: Transport, es: seq<Event>)
    requires Remembered(t)
    ensures Remembered(Run(t, es))
  {
    if es != [] {
      RunKeepsRemembered(t, es[..|es| - 1]);
      StepKeepsRemembered(Run(t, es[..|es| - 1]), es[|es| - 1]);
    }
  }

  /** In every run: a negotiation requested after the latest created offer leaves the state at
      Retry, unless the negotiation has failed or the connection is closed. */
  lemma {:induction false} NoRequestLost(isOfferer: bool, previousAnswer: bool, es: seq<Event>)
    ensures var t := Run(Start(isOfferer, previousAnswer), es);
            t.owed.offer ==> t.state.Retry? || t.failed || t.pc.closed
  {
    RunKeepsRemembered(Start(isOfferer, previousAnswer), es);
  }

  /** Likewise an ICE restart requested after gathering began waits for the gathering to end,
      or for the next offer. */
  lemma {:induction false} NoRestartLost(isOfferer: bool, previousAnswer: bool, es: seq<Event>)
    ensures var t := Run(Start(isOfferer, previousAnswer), es);
            t.owed.restart ==>
              t.restarts.afterGathering || (t.restarts.atNextOffer && t.state.Retry?) || t.failed || t.pc.closed
  {
    RunKeepsRemembered(Start(isOfferer, previousAnswer), es);
  }

  /** The answer that ends a Retry creates the owed offer in the same step, and the offer
      restarts ICE if that was put off to it. */
  lemma AnswerCreatesOwedOffer(t: Transport, calls: Calls)
    requires t.state.Retry?
    ensures var u := Step(t, RemoteAnswer(calls));
            u.failed || u.pc.closed ||
            (u.owed == Owed(false, t.owed.restart && !RestartsICE(t, false)) && u.state.WaitingForRemote?
             && OfferCreated(RestartsICE(t, false)) in u.log)
  {
    var restart := RestartsICE(t, false);
    var (answered, result) := SetRemoteDescription(t, true, calls);
    if !result.NotApplied? && !answered.pc.closed && OfferOutcome(calls).Ok? {
      var created := OfferExists(BeginOffer(answered.(state := Idle), restart), restart);
      assert created.log[|created.log| - 1] == OfferCreated(restart);
      SendKeepsLog(created, t.exchanges, calls);
    }
  }

  lemma SendKeepsLog(t: Transport, exchange: nat, calls: Calls)
    ensures t.log <= SendDescription(t, exchange, calls).0.log
  {
    var sent := Emit(t, DescriptionSent(exchange, true));
    LogGrows(sent.log, sent.local.cached[..Min(calls.sends, |sent.local.cached|)]);
  }

  lemma {:induction false} LogGrows(log: seq<Output>, cs: seq<Option<Candidate>>)
    ensures log <= EmitCandidates(log, cs)
  {
    if cs != [] { LogGrows(log, cs[..|cs| - 1]); }
  }

  // ---------------------------------------------- one offer at a time

  /** An offer in `log` waits for its answer, or for the last one to be applied again. */
  function Outstanding(log: seq<Output>): bool {
    if log == [] then false
    else
      var last := log[|log| - 1];
      if last.OfferCreated? then true
      else if last.AnswerApplied? || last.Recovered? then false
      else Outstanding(log[..|log| - 1])
  }

  /** No description has been sent since the latest clear. */
  function Unsent(log: seq<Output>): bool {
    if log == [] then false
    else
      var last := log[|log| - 1];
      if last.LocalCleared? then true else if last.DescriptionSent? then false else Unsent(log[..|log| - 1])
  }

  /** `o` may follow `log`. */
  ghost predicate Allowed(log: seq<Output>, o: Output) {
    && (o.OfferCreated? ==> !Outstanding(log))
    && (o.AnswerApplied? ==> Outstanding(log))
    && (o.LocalCandidate? ==> !Unsent(log))
  }

  ghost predicate AllowedAt(log: seq<Output>, i: nat)
    requires i < |log|
  {
    Allowed(log[..i], log[i])
  }

  ghost predicate WellOrdered(log: seq<Output>) {
    forall i {:trigger AllowedAt(log, i)} :: 0 <= i < |log| ==> AllowedAt(log, i)
  }

  /** What the transport's fields remember of the log. */
  ghost predicate LogInv(t: Transport) {
    && WellOrdered(t.log)
    && (t.pc.offerOutstanding <==> Outstanding(t.log))
    && (Unsent(t.log) ==> t.local.caching)
  }

  ghost predicate IdleInv(t: Transport) {
    t.state.Idle? ==> !t.pc.offerOutstanding || t.pc.closed
  }

  lemma EmitWellOrdered(log: seq<Output>, o: Output)
    requires WellOrdered(log) && Allowed(log, o)
    ensures WellOrdered(log + [o])
    ensures Outstanding(log + [o]) == if o.OfferCreated? then true else if o.AnswerApplied? || o.Recovered? then false else Outstanding(log)
    ensures Unsent(log + [o]) == if o.LocalCleared? then true else if o.DescriptionSent? then false else Unsent(log)
  {
    var longer := log + [o];
    assert longer[..|log|] == log;
    forall i | 0 <= i < |longer| ensures AllowedAt(longer, i) {
      if i < |log| { assert AllowedAt(log, i) && longer[..i] == log[..i]; }
    }
  }

  lemma {:induction false} CandidatesWellOrdered(log: seq<Output>, cs: seq<Option<Candidate>>)
    requires WellOrdered(log) && !Unsent(log)
    ensures var longer := EmitCandidates(log, cs);
            WellOrdered(longer) && !Unsent(longer) && Outstanding(longer) == Outstanding(log)
    decreases |cs|
  {
    if cs != [] {
      CandidatesWellOrdered(log, cs[..|cs| - 1]);
      EmitWellOrdered(EmitCandidates(log, cs[..|cs| - 1]), LocalCandidate(cs[|cs| - 1]));
    }
  }

  lemma DescriptionKeepsLogInv(t: Transport, exchange: nat, done: bool)
    requires LogInv(t)
    ensures var u := Emit(t, DescriptionSent(exchange, done)); LogInv(u) && !Unsent(u.log)
  {
    EmitWellOrdered(t.log, DescriptionSent(exchange, done));
  }

  /** Sending a description and what was held back for it. */
  lemma SendKeepsLogInv(t: Transport, exchange: nat, calls: Calls)
    requires LogInv(t)
    ensures LogInv(SendDescription(t, exchange, calls).0)
  {
    DescriptionKeepsLogInv(t, exchange, true);
    if calls.wrote && t.local.caching {
      var cached := t.local.cached[..Min(calls.sends, |t.local.cached|)];
      CandidatesWellOrdered(Emit(t, DescriptionSent(exchange, true)).log, cached);
    }
  }

  lemma BeginKeepsLogInv(t: Transport, restart: bool)
    requires LogInv(t)
    ensures var u := BeginOffer(t, restart);
            LogInv(u) && u.pc == t.pc && u.state == t.state && Outstanding(u.log) == Outstanding(t.log)
  {
    if restart { EmitWellOrdered(t.log, LocalCleared(t.exchanges)); }
  }

  lemma MakeKeepsLogInv(t: Transport, restart: bool, calls: Calls)
    requires LogInv(t) && !t.pc.offerOutstanding && t.state.Idle?
    ensures var u := MakeOffer(t, restart, calls).0; LogInv(u) && IdleInv(u)
  {
    BeginKeepsLogInv(t, restart);
    var begun := BeginOffer(t, restart);
    if OfferOutcome(calls).Ok? {
      EmitWellOrdered(begun.log, OfferCreated(restart));
      SendKeepsLogInv(OfferExists(begun, restart), t.exchanges, calls);
    }
  }

  lemma OfferKeepsLogInv(t: Transport, iceRestart: bool, calls: Calls)
    requires LogInv(t) && IdleInv(t)
    ensures var u := CreateAndSendOffer(t, iceRestart, calls).0; LogInv(u) && IdleInv(u)
  {
    if !t.pc.closed && t.state.Idle? { MakeKeepsLogInv(t, RestartsICE(t, iceRestart), calls); }
  }

  lemma RemoteKeepsLogInv(t: Transport, isAnswer: bool, calls: Calls)
    requires LogInv(t)
    ensures var (u, result) := SetRemoteDescription(t, isAnswer, calls);
            && LogInv(u) && u.state == t.state && u.restarts == t.restarts
            && (IdleInv(t) ==> IdleInv(u))
            && (isAnswer && !result.NotApplied? ==> !u.pc.offerOutstanding || u.pc.closed)
  {
    var outcome := SetRemoteOutcome(t, isAnswer, calls);
    if (outcome.Ok? || outcome.UnsupportedCodec?) && isAnswer {
      EmitWellOrdered(t.log, AnswerApplied);
      assert LogInv(RemoteSet(t, isAnswer));
    }
  }

  lemma AnswerKeepsLogInv(t: Transport, calls: Calls)
    requires LogInv(t) && IdleInv(t)
    ensures var u := HandleRemoteAnswer(t, calls).0; LogInv(u) && IdleInv(u)
  {
    RemoteKeepsLogInv(t, true, calls);
    var (u, result) := SetRemoteDescription(t, true, calls);
    if !result.NotApplied? { OfferKeepsLogInv(u.(state := Idle), false, calls); }
  }

  lemma RestartKeepsLogInv(t: Transport, calls: Calls)
    requires LogInv(t) && IdleInv(t)
    ensures var u := DoICERestart(t, calls).0; LogInv(u) && IdleInv(u)
  {
    if !t.pc.closed && t.pc.gathering.Complete? {
      if t.state.Idle? {
        OfferKeepsLogInv(t, true, calls);
      } else if t.pc.hasCurrentRemote {
        EmitWellOrdered(t.log, Recovered);
        OfferKeepsLogInv(Recover(t), true, calls);
      }
    }
  }

  lemma CreateAnswerKeepsLogInv(t: Transport, exchange: nat, calls: Calls)
    requires LogInv(t) && IdleInv(t)
    ensures var u := CreateAndSendAnswer(t, exchange, calls).0; LogInv(u) && IdleInv(u)
  {
    var answered := t.(pc := t.pc.(hasLocal := true, hasCurrentRemote := true));
    assert LogInv(answered);
    DescriptionKeepsLogInv(answered, exchange, false);
    SendKeepsLogInv(answered, exchange, calls);
  }

  lemma AcceptKeepsLogInv(t: Transport, exchange: nat, calls: Calls)
    requires LogInv(t) && IdleInv(t)
    ensures var u := AcceptOffer(t, exchange, calls).0; LogInv(u) && IdleInv(u)
  {
    RemoteKeepsLogInv(t, false, calls);
    CreateAnswerKeepsLogInv(SetRemoteDescription(t, false, calls).0, exchange, calls);
  }

  lemma ClearKeepsLogInv(t: Transport, restartsICE: bool)
    requires LogInv(t) && IdleInv(t)
    ensures LogInv(ClearedFor(t, restartsICE)) && IdleInv(ClearedFor(t, restartsICE))
  {
    EmitWellOrdered(t.log, LocalCleared(t.exchanges));
  }

  lemma RemoteOfferKeepsLogInv(t: Transport, restartsICE: bool, calls: Calls)
    requires LogInv(t) && IdleInv(t)
    ensures var u := HandleRemoteOffer(t, restartsICE, calls).0; LogInv(u) && IdleInv(u)
  {
    ClearKeepsLogInv(t, restartsICE);
    AcceptKeepsLogInv(ClearedFor(t, restartsICE), t.exchanges, calls);
  }

  lemma GatheringKeepsLogInv(t: Transport, calls: Calls)
    requires LogInv(t) && IdleInv(t)
    ensures var u := HandleGatheringComplete(t, calls).0; LogInv(u) && IdleInv(u)
  {
    if t.isOfferer {
      RestartKeepsLogInv(t.(restarts := t.restarts.(afterGathering := false)), calls);
    } else if t.restarts.pendingRemoteOffer.Some? {
      AcceptKeepsLogInv(t.(restarts := t.restarts.(pendingRemoteOffer := None)), t.restarts.pendingRemoteOffer.value, calls);
    }
  }

  lemma HandleKeepsLogInv(t: Transport, e: Event)
    requires LogInv(t) && IdleInv(t)
    ensures LogInv(Handle(t, e).0) && IdleInv(Handle(t, e).0)
  {
    if e.SendOffer? {
      OfferKeepsLogInv(RequestOffer(t), false, e.calls);
    } else if e.RemoteAnswer? {
      AnswerKeepsLogInv(t, e.calls);
    } else if e.RemoteOffer? {
      RemoteOfferKeepsLogInv(t, e.restartsICE, e.calls);
    } else if e.ICERestart? {
      RestartKeepsLogInv(RequestRestart(t), e.calls);
    } else if e.GatheringComplete? {
      GatheringKeepsLogInv(t, e.calls);
    } else if e.LocalICECandidate? && !t.local.caching {
      EmitWellOrdered(t.log, LocalCandidate(e.local));
    }
  }

  lemma StepKeepsLogInv(t: Transport, e: Event)
    requires LogInv(t) && IdleInv(t)
    ensures LogInv(Step(t, e)) && IdleInv(Step(t, e))
  {
    HandleKeepsLogInv(t, e);
  }

  lemma {:induction false} RunKeepsLogInv(t: Transport, es: seq<Event>)
    requires LogInv(t) && IdleInv(t)
    ensures LogInv(Run(t, es)) && IdleInv(Run(t, es))
  {
    if es != [] {
      RunKeepsLogInv(t, es[..|es| - 1]);
      StepKeepsLogInv(Run(t, es[..|es| - 1]), es[|es| - 1]);
    }
  }

  /** In every run no offer is created while one is outstanding, where an ICE restart may end
      the exchange by applying the last answer again; and after a clear for an ICE restart no
      local candidate leaves before some description is sent. */
  lemma {:induction false} OneOfferAtATime(isOfferer: bool, previousAnswer: bool, es: seq<Event>)
    ensures WellOrdered(Run(Start(isOfferer, previousAnswer), es).log)
  {
    RunKeepsLogInv(Start(isOfferer, previousAnswer), es);
  }

  ghost predicate NeverRestarts(es: seq<Event>) {
    forall i :: 0 <= i < |es| ==> !es[i].ICERestart?
  }

  lemma {:induction false} CandidatesOnly(log: seq<Output>, cs: seq<Option<Candidate>>)
    requires Recovered !in log
    ensures Recovered !in EmitCandidates(log, cs)
  {
    if cs != [] { CandidatesOnly(log, cs[..|cs| - 1]); }
  }

  lemma SendNeverRecovers(t: Transport, exchange: nat, calls: Calls)
    requires Recovered !in t.log
    ensures Recovered !in SendDescription(t, exchange, calls).0.log
  {
    var sent := Emit(t, DescriptionSent(exchange, true));
    CandidatesOnly(sent.log, sent.local.cached[..Min(calls.sends, |sent.local.cached|)]);
  }

  lemma OfferNeverRecovers(t: Transport, calls: Calls)
    requires Recovered !in t.log
    ensures Recovered !in CreateAndSendOffer(t, false, calls).0.log
  {
    var restart := RestartsICE(t, false);
    SendNeverRecovers(OfferExists(BeginOffer(t, restart), restart), t.exchanges, calls);
  }

  lemma AcceptNeverRecovers(t: Transport, exchange: nat, calls: Calls)
    requires Recovered !in t.log
    ensures Recovered !in AcceptOffer(t, exchange, calls).0.log
  {
    var u := SetRemoteDescription(t, false, calls).0;
    SendNeverRecovers(u.(pc := u.pc.(hasLocal := true, hasCurrentRemote := true)), exchange, calls);
  }

  lemma AnswerNeverRecovers(t: Transport, calls: Calls)
    requires !t.restarts.afterGathering && Recovered !in t.log
    ensures var u := HandleRemoteAnswer(t, calls).0; !u.restarts.afterGathering && Recovered !in u.log
  {
    OfferNeverRecovers(SetRemoteDescription(t, true, calls).0.(state := Idle), calls);
  }

  lemma RemoteOfferNeverRecovers(t: Transport, restartsICE: bool, calls: Calls)
    requires !t.restarts.afterGathering && Recovered !in t.log
    ensures var u := HandleRemoteOffer(t, restartsICE, calls).0; !u.restarts.afterGathering && Recovered !in u.log
  {
    AcceptNeverRecovers(ClearedFor(t, restartsICE), t.exchanges, calls);
  }

  lemma GatheringNeverRecovers(t: Transport, calls: Calls)
    requires !t.restarts.afterGathering && Recovered !in t.log
    ensures var u := HandleGatheringComplete(t, calls).0; !u.restarts.afterGathering && Recovered !in u.log
  {
    if t.restarts.pendingRemoteOffer.Some? {
      AcceptNeverRecovers(t.(restarts := t.restarts.(pendingRemoteOffer := None)), t.restarts.pendingRemoteOffer.value, calls);
    }
  }

  lemma StepNeverRecovers(t: Transport, e: Event)
    requires !e.ICERestart? && !t.restarts.afterGathering && Recovered !in t.log
    ensures !Step(t, e).restarts.afterGathering && Recovered !in Step(t, e).log
  {
    if e.SendOffer? {
      OfferNeverRecovers(RequestOffer(t), e.calls);
    } else if e.RemoteAnswer? {
      AnswerNeverRecovers(t, e.calls);
    } else if e.RemoteOffer? {
      RemoteOfferNeverRecovers(t, e.restartsICE, e.calls);
    } else if e.GatheringComplete? {
      GatheringNeverRecovers(t, e.calls);
    }
  }

  lemma {:induction false} NeverRecovers(t: Transport, es: seq<Event>)
    requires NeverRestarts(es) && !t.restarts.afterGathering && Recovered !in t.log
    ensures !Run(t, es).restarts.afterGathering && Recovered !in Run(t, es).log
  {
    if es != [] {
      NeverRecovers(t, es[..|es| - 1]);
      StepNeverRecovers(Run(t, es[..|es| - 1]), es[|es| - 1]);
    }
  }

  /** Without ICE restarts offers and answers alternate, as section 4 of RFC 3264 asks: every
      offer but the first is preceded by the answer to the one before. */
  lemma {:induction false} OffersAndAnswersAlternate(isOfferer: bool, previousAnswer: bool, es: seq<Event>, i: nat, j: nat)
    requires NeverRestarts(es)
    requires i < j < |Run(Start(isOfferer, previousAnswer), es).log|
    requires Run(Start(isOfferer, previousAnswer), es).log[i].OfferCreated?
    requires Run(Start(isOfferer, previousAnswer), es).log[j].OfferCreated?
    ensures exists k :: i < k < j && Run(Start(isOfferer, previousAnswer), es).log[k].AnswerApplied?
  {
    var log := Run(Start(isOfferer, previousAnswer), es).log;
    OneOfferAtATime(isOfferer, previousAnswer, es);
    NeverRecovers(Start(isOfferer, previousAnswer), es);
    assert AllowedAt(log, j);
    if forall k :: i < k < j ==> !log[k].AnswerApplied? { OfferStaysOutstanding(log, i, j); }
  }

  lemma {:induction false} OfferStaysOutstanding(log: seq<Output>, i: nat, j: nat)
    requires i < j <= |log| && log[i].OfferCreated?
    requires forall k :: i < k < j ==> !log[k].Recovered? && !log[k].AnswerApplied?
    ensures Outstanding(log[..j])
    decreases j
  {
    assert log[..j][..j - 1] == log[..j - 1];
    if i < j - 1 { OfferStaysOutstanding(log, i, j - 1); }
  }

  const AllOk := Calls(Ok, Ok, Ok, true, true, 1000, 1000)
}
