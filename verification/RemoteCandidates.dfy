/**
 The remote candidates of a peer connection (pkg/rtc/transport.go): held back until there is
 a remote description, then handed to the connection in the order of their arrival.
 */
module RemoteCandidates {
  import opened Negotiation
  import opened Wrappers

  /** The remote description that handling `e` sets, if any: is it an answer, and how the calls end. */
  function Description(t: Transport, e: Event): Option<(bool, Calls)> {
    match e
    case RemoteAnswer(calls) => Some((true, calls))
    case RemoteOffer(restartsICE, calls) =>
      if restartsICE && t.pc.gathering.InProgress? then None else Some((false, calls))
    case GatheringComplete(calls) =>
      if !t.isOfferer && t.restarts.pendingRemoteOffer.Some? then Some((false, calls)) else None
    case _ => None
  }

  /** The connection takes the candidate, or it waits for a description. */
  predicate Accepts(t: Transport, e: Event) {
    e.RemoteICECandidate? && !e.filtered && (!t.pc.hasRemote || e.add.Added?)
  }

  /** The candidates of the run that were not refused, in order of arrival. */
  function Accepted(start: Transport, es: seq<Event>): seq<Candidate> {
    if es == [] then []
    else
      var front, e := Accepted(start, es[..|es| - 1]), es[|es| - 1];
      if Accepts(Run(start, es[..|es| - 1]), e) then front + [e.remote] else front
  }

  /** Applied are the first of `s`, each once, and the others wait in order. */
  predicate Ordered(t: Transport, s: seq<Candidate>) {
    t.remote.applied + t.remote.pending == s
  }

  /** And nothing waits once there is a remote description, nor is applied before. */
  predicate Prompt(t: Transport, s: seq<Candidate>) {
    && Ordered(t, s)
    && (t.pc.hasRemote ==> t.remote.pending == [])
    && (!t.pc.hasRemote ==> t.remote.applied == [])
  }

  /** A candidate is applied at once while a different one waits, or the pending candidates are
      applied up to a rejected one that is not the first: all of them stay pending. */
  predicate Disorders(t: Transport, e: Event) {
    if e.RemoteICECandidate? then
      Accepts(t, e) && t.pc.hasRemote && exists c :: c in t.remote.pending && c != e.remote
    else match Description(t, e)
      case None => false
      case Some((isAnswer, calls)) => SetRemoteOutcome(t, isAnswer, calls).Ok? && 0 < calls.adds < |t.remote.pending|
  }

  /** A description is set while candidates are pending, and not all of them are applied. */
  predicate LeavesWaiting(t: Transport, e: Event) {
    match Description(t, e)
    case None => false
    case Some((isAnswer, calls)) =>
      var outcome := SetRemoteOutcome(t, isAnswer, calls);
      t.remote.pending != [] && (outcome.UnsupportedCodec? || (outcome.Ok? && calls.adds < |t.remote.pending|))
  }

  ghost predicate OrderedThroughout(start: Transport, es: seq<Event>) {
    Ordered(Run(start, es), Accepted(start, es)) && (es == [] || OrderedThroughout(start, es[..|es| - 1]))
  }

  ghost predicate NothingDisorders(start: Transport, es: seq<Event>) {
    es == [] || (NothingDisorders(start, es[..|es| - 1]) && !Disorders(Run(start, es[..|es| - 1]), es[|es| - 1]))
  }

  ghost predicate PromptThroughout(start: Transport, es: seq<Event>) {
    Prompt(Run(start, es), Accepted(start, es)) && (es == [] || PromptThroughout(start, es[..|es| - 1]))
  }

  ghost predicate NothingLeftWaiting(start: Transport, es: seq<Event>) {
    es == [] || (NothingLeftWaiting(start, es[..|es| - 1]) && !LeavesWaiting(Run(start, es[..|es| - 1]), es[|es| - 1]))
  }

  // -------------------------------------------------------------- handlers

  lemma AcceptSets(t: Transport, exchange: nat, calls: Calls)
    ensures var u, v := AcceptOffer(t, exchange, calls).0, SetRemoteDescription(t, false, calls).0;
            u.remote == v.remote && u.pc.hasRemote == v.pc.hasRemote
  {
  }

  lemma RestartSetsNothing(t: Transport, calls: Calls)
    ensures var u := DoICERestart(t, calls).0; u.remote == t.remote && u.pc.hasRemote == t.pc.hasRemote
  {
  }

  lemma AnswerSets(t: Transport, calls: Calls)
    ensures var u, v := HandleRemoteAnswer(t, calls).0, SetRemoteDescription(t, true, calls).0;
            u.remote == v.remote && u.pc.hasRemote == v.pc.hasRemote
  {
  }

  /** Only the connection and the candidates matter for what an offer sets. */
  lemma DependsOnPC(t: Transport, u: Transport, calls: Calls)
    requires u.pc == t.pc && u.remote == t.remote
    ensures var v, w := SetRemoteDescription(t, false, calls).0, SetRemoteDescription(u, false, calls).0;
            w.remote == v.remote && w.pc == v.pc
  {
    assert SetRemoteOutcome(u, false, calls) == SetRemoteOutcome(t, false, calls);
    assert RemoteSet(u, false).pc == RemoteSet(t, false).pc;
  }

  lemma GatheringSets(t: Transport, calls: Calls)
    ensures var u := HandleGatheringComplete(t, calls).0;
            var v := if !t.isOfferer && t.restarts.pendingRemoteOffer.Some? then SetRemoteDescription(t, false, calls).0 else t;
            u.remote == v.remote && u.pc.hasRemote == v.pc.hasRemote
  {
    if t.isOfferer && t.restarts.afterGathering {
      var begun := t.(restarts := t.restarts.(afterGathering := false));
      assert HandleGatheringComplete(t, calls) == DoICERestart(begun, calls);
      RestartSetsNothing(begun, calls);
    } else if !t.isOfferer && t.restarts.pendingRemoteOffer.Some? {
      var n, begun := t.restarts.pendingRemoteOffer.value, t.(restarts := t.restarts.(pendingRemoteOffer := None));
      assert HandleGatheringComplete(t, calls) == AcceptOffer(begun, n, calls);
      AcceptSets(begun, n, calls);
      DependsOnPC(t, begun, calls);
    } else {
      assert HandleGatheringComplete(t, calls) == (t, true);
    }
  }

  /** What a step other than that of a remote candidate does to them: it sets the description, or
      leaves them alone. */
  lemma StepSets(t: Transport, e: Event)
    requires !e.RemoteICECandidate?
    ensures var u := Step(t, e);
            var v := if Description(t, e).None? then t
                     else SetRemoteDescription(t, Description(t, e).value.0, Description(t, e).value.1).0;
            u.remote == v.remote && u.pc.hasRemote == v.pc.hasRemote
  {
    if e.RemoteAnswer? {
      AnswerSets(t, e.calls);
    } else if e.RemoteOffer? {
      var cleared := ClearedFor(t, e.restartsICE);
      AcceptSets(cleared, t.exchanges, e.calls);
      DependsOnPC(t, cleared, e.calls);
    } else if e.ICERestart? {
      RestartSetsNothing(RequestRestart(t), e.calls);
    } else if e.GatheringComplete? {
      GatheringSets(t, e.calls);
    }
  }

  // ------------------------------------------------------ in arrival order

  /** Setting a description keeps the order exactly when its flush does not stop among the pending
      candidates, and leaves none waiting exactly when it applies them all, or there are none, or
      it is not set. */
  lemma RemoteDescriptionKeepsOrder(t: Transport, isAnswer: bool, calls: Calls, s: seq<Candidate>)
    requires Ordered(t, s)
    ensures var outcome, u := SetRemoteOutcome(t, isAnswer, calls), SetRemoteDescription(t, isAnswer, calls).0;
            && (Ordered(u, s) <==> !(outcome.Ok? && 0 < calls.adds < |t.remote.pending|))
            && (Prompt(t, s) ==>
                  (Prompt(u, s) <==>
                    (outcome.UnsupportedCodec? || (outcome.Ok? && calls.adds < |t.remote.pending|) ==> t.remote.pending == [])))
  {
    var r := t.remote;
    if SetRemoteOutcome(t, isAnswer, calls).Ok? {
      if calls.adds >= |r.pending| {
        assert r.pending[..|r.pending|] == r.pending;
      } else if calls.adds > 0 {
        assert |r.applied + r.pending[..calls.adds] + r.pending| > |s|;
      } else {
        assert r.applied + r.pending[..0] == r.applied;
      }
    }
  }

  lemma {:induction false} MovesPastEqual(pending: seq<Candidate>, c: Candidate)
    ensures [c] + pending == pending + [c] <==> forall d :: d in pending ==> d == c
  {
    if pending != [] {
      var first, rest := pending[0], pending[1..];
      MovesPastEqual(rest, c);
      assert [c] + pending == [c] + ([first] + rest) && pending + [c] == [first] + (rest + [c]);
      assert ([c] + pending)[1..] == [first] + rest && (pending + [c])[1..] == rest + [c];
      assert ([c] + pending)[0] == c && (pending + [c])[0] == first && first in pending;
      if first == c {
        assert forall d :: d in pending <==> d == c || d in rest;
      }
    }
  }

  /** A candidate applied behind what was applied, with others pending, is in order exactly when
      it is equal to all of these. */
  lemma AppliedBeforePending(applied: seq<Candidate>, pending: seq<Candidate>, c: Candidate)
    ensures applied + [c] + pending == applied + pending + [c] <==> forall d :: d in pending ==> d == c
  {
    var a, b := applied + [c] + pending, applied + pending + [c];
    assert a == applied + ([c] + pending) && b == applied + (pending + [c]);
    assert a[|applied|..] == [c] + pending && b[|applied|..] == pending + [c];
    MovesPastEqual(pending, c);
  }

  lemma CandidateKeepsOrderIff(t: Transport, e: Event, s: seq<Candidate>)
    requires e.RemoteICECandidate? && Ordered(t, s)
    ensures var u, after := Step(t, e), if Accepts(t, e) then s + [e.remote] else s;
            && (Ordered(u, after) <==> !Disorders(t, e))
            && (Prompt(t, s) ==> Prompt(u, after))
  {
    var r := t.remote;
    if Accepts(t, e) {
      if t.pc.hasRemote {
        AppliedBeforePending(r.applied, r.pending, e.remote);
      } else {
        assert r.applied + (r.pending + [e.remote]) == s + [e.remote];
      }
    }
  }

  lemma DescriptionKeepsOrderIff(t: Transport, e: Event, s: seq<Candidate>)
    requires !e.RemoteICECandidate? && Ordered(t, s)
    ensures Ordered(Step(t, e), s) <==> !Disorders(t, e)
    ensures Prompt(t, s) ==> (Prompt(Step(t, e), s) <==> !LeavesWaiting(t, e))
  {
    StepSets(t, e);
    var d, u := Description(t, e), Step(t, e);
    var v := if d.None? then t else SetRemoteDescription(t, d.value.0, d.value.1).0;
    assert u.remote == v.remote && u.pc.hasRemote == v.pc.hasRemote;
    assert Ordered(u, s) == Ordered(v, s) && Prompt(u, s) == Prompt(v, s);
    if d.Some? { RemoteDescriptionKeepsOrder(t, d.value.0, d.value.1, s); }
  }

  lemma StepKeepsOrderIff(t: Transport, e: Event, s: seq<Candidate>)
    requires Ordered(t, s)
    ensures var u, after := Step(t, e), if Accepts(t, e) then s + [e.remote] else s;
            && (Ordered(u, after) <==> !Disorders(t, e))
            && (Prompt(t, s) ==> (Prompt(u, after) <==> !LeavesWaiting(t, e)))
  {
    if e.RemoteICECandidate? { CandidateKeepsOrderIff(t, e, s); } else { DescriptionKeepsOrderIff(t, e, s); }
  }

  /** In every run: at every point the candidates applied are the first that were accepted, in
      order of arrival and each once, with the others waiting in order, exactly when no step
      disorders them. */
  lemma {:induction false} OrderedIffNothingDisorders(isOfferer: bool, previousAnswer: bool, es: seq<Event>)
    ensures OrderedThroughout(Start(isOfferer, previousAnswer), es) <==> NothingDisorders(Start(isOfferer, previousAnswer), es)
  {
    if es != [] {
      var start, front := Start(isOfferer, previousAnswer), es[..|es| - 1];
      OrderedIffNothingDisorders(isOfferer, previousAnswer, front);
      if OrderedThroughout(start, front) {
        StepKeepsOrderIff(Run(start, front), es[|es| - 1], Accepted(start, front));
      }
    }
  }

  /** And all of them are applied as soon as there is a remote description exactly when no
      description leaves candidates waiting. */
  lemma {:induction false} PromptIffNothingLeftWaiting(isOfferer: bool, previousAnswer: bool, es: seq<Event>)
    ensures PromptThroughout(Start(isOfferer, previousAnswer), es) <==> NothingLeftWaiting(Start(isOfferer, previousAnswer), es)
  {
    if es != [] {
      var start, front := Start(isOfferer, previousAnswer), es[..|es| - 1];
      PromptIffNothingLeftWaiting(isOfferer, previousAnswer, front);
      if PromptThroughout(start, front) {
        StepKeepsOrderIff(Run(start, front), es[|es| - 1], Accepted(start, front));
      }
    }
  }

  /** Where none is left waiting nothing is disordered. */
  lemma {:induction false} NoneWaitingNoneDisordered(isOfferer: bool, previousAnswer: bool, es: seq<Event>)
    requires NothingLeftWaiting(Start(isOfferer, previousAnswer), es)
    ensures NothingDisorders(Start(isOfferer, previousAnswer), es)
  {
    if es != [] {
      var start, front := Start(isOfferer, previousAnswer), es[..|es| - 1];
      NoneWaitingNoneDisordered(isOfferer, previousAnswer, front);
      PromptIffNothingLeftWaiting(isOfferer, previousAnswer, es);
      PromptIffNothingLeftWaiting(isOfferer, previousAnswer, front);
      StepKeepsOrderIff(Run(start, front), es[|es| - 1], Accepted(start, front));
    }
  }

  // ------------------------------------------------- accepted and arrived

  /** No candidate is refused. */
  ghost predicate NoneRefused(start: Transport, es: seq<Event>) {
    es == [] || (NoneRefused(start, es[..|es| - 1])
                 && (es[|es| - 1].RemoteICECandidate? && !es[|es| - 1].filtered ==> Accepts(Run(start, es[..|es| - 1]), es[|es| - 1])))
  }

  /** `a` is `b` with some elements left out. */
  ghost predicate Subsequence(a: seq<Candidate>, b: seq<Candidate>)
    decreases |b|
  {
    || a == []
    || (b != [] && Subsequence(a, b[..|b| - 1]))
    || (b != [] && a[|a| - 1] == b[|b| - 1] && Subsequence(a[..|a| - 1], b[..|b| - 1]))
  }

  lemma SubsequenceAppend(a: seq<Candidate>, b: seq<Candidate>, c: Candidate)
    requires Subsequence(a, b)
    ensures Subsequence(a, b + [c]) && Subsequence(a + [c], b + [c])
  {
    assert (b + [c])[..|b|] == b && (a + [c])[..|a|] == a;
  }

  lemma StepArrives(t: Transport, e: Event)
    ensures Step(t, e).remote.arrived
            == if e.RemoteICECandidate? && !e.filtered then t.remote.arrived + [e.remote] else t.remote.arrived
  {
    if !e.RemoteICECandidate? { StepSets(t, e); }
  }

  /** The accepted candidates are those that arrived without the refused ones. */
  lemma {:induction false} AcceptedAreArrived(isOfferer: bool, previousAnswer: bool, es: seq<Event>)
    ensures var t, accepted := Run(Start(isOfferer, previousAnswer), es), Accepted(Start(isOfferer, previousAnswer), es);
            && Subsequence(accepted, t.remote.arrived)
            && (NoneRefused(Start(isOfferer, previousAnswer), es) ==> accepted == t.remote.arrived)
  {
    if es != [] {
      var start, front, e := Start(isOfferer, previousAnswer), es[..|es| - 1], es[|es| - 1];
      AcceptedAreArrived(isOfferer, previousAnswer, front);
      StepArrives(Run(start, front), e);
      if e.RemoteICECandidate? {
        SubsequenceAppend(Accepted(start, front), Run(start, front).remote.arrived, e.remote);
      }
    }
  }

  /** When descriptions and candidates are accepted, the candidates applied are exactly those
      that arrived, in order and once each, except the ones still waiting for a description. */
  lemma {:induction false} CandidatesInArrivalOrder(isOfferer: bool, previousAnswer: bool, es: seq<Event>)
    requires NothingLeftWaiting(Start(isOfferer, previousAnswer), es) && NoneRefused(Start(isOfferer, previousAnswer), es)
    ensures var t := Run(Start(isOfferer, previousAnswer), es);
            && t.remote.arrived == t.remote.applied + t.remote.pending
            && (t.pc.hasRemote ==> t.remote.applied == t.remote.arrived)
            && (!t.pc.hasRemote ==> t.remote.applied == [])
  {
    PromptIffNothingLeftWaiting(isOfferer, previousAnswer, es);
    AcceptedAreArrived(isOfferer, previousAnswer, es);
  }

  /** Whatever candidates the connection refuses or cannot parse, those applied and waiting are in
      order of arrival and once each, with the refused ones left out, while nothing disorders them. */
  lemma {:induction false} AppliedIsSubsequence(isOfferer: bool, previousAnswer: bool, es: seq<Event>)
    requires NothingDisorders(Start(isOfferer, previousAnswer), es)
    ensures var t := Run(Start(isOfferer, previousAnswer), es);
            && Subsequence(t.remote.applied + t.remote.pending, t.remote.arrived)
            && (NothingLeftWaiting(Start(isOfferer, previousAnswer), es) ==>
                  if t.pc.hasRemote then Subsequence(t.remote.applied, t.remote.arrived) else t.remote.applied == [])
  {
    OrderedIffNothingDisorders(isOfferer, previousAnswer, es);
    PromptIffNothingLeftWaiting(isOfferer, previousAnswer, es);
    AcceptedAreArrived(isOfferer, previousAnswer, es);
    var t := Run(Start(isOfferer, previousAnswer), es);
    assert t.remote.applied + [] == t.remote.applied;
  }

  // ---------------------------------------------------- two concrete runs

  lemma RunExtends(t: Transport, es: seq<Event>, e: Event)
    ensures Run(t, es + [e]) == Step(Run(t, es), e)
    ensures NothingDisorders(t, es + [e]) <==> NothingDisorders(t, es) && !Disorders(Run(t, es), e)
    ensures NothingLeftWaiting(t, es + [e]) <==> NothingLeftWaiting(t, es) && !LeavesWaiting(Run(t, es), e)
  {
    assert (es + [e])[..|es|] == es;
  }

  /** A candidate arrives before the answer, and the answer has an unsupported codec. */
  function CodecRefused(a: Candidate): seq<Event> {
    [] + [SendOffer(AllOk)] + [RemoteICECandidate(a, false, Added)] + [RemoteAnswer(AllOk.(setRemote := UnsupportedCodec))]
  }

  lemma AfterCodecRefused(a: Candidate)
    ensures var t := Run(Start(true, false), CodecRefused(a));
            && t.isOfferer && t.state == Idle && t.pc.hasRemote && !t.pc.closed && !t.failed
            && t.remote == RemoteSide([a], [a], []) && !t.local.caching
    ensures NothingDisorders(Start(true, false), CodecRefused(a)) && !NothingLeftWaiting(Start(true, false), CodecRefused(a))
  {
    var start, e0, e1, e2 := Start(true, false), SendOffer(AllOk), RemoteICECandidate(a, false, Added),
      RemoteAnswer(AllOk.(setRemote := UnsupportedCodec));
    RunExtends(start, [], e0);
    var t1 := Step(start, e0);
    assert t1.pc == start.pc.(offerOutstanding := true, hasLocal := true) && t1.remote == start.remote && t1.state == WaitingForRemote;
    RunExtends(start, [] + [e0], e1);
    var t2 := Step(t1, e1);
    assert t2.remote == RemoteSide([a], [a], []) && t2.pc == t1.pc && t2.state == t1.state;
    RunExtends(start, [] + [e0] + [e1], e2);
    assert LeavesWaiting(t2, e2) && !Disorders(t2, e2);
  }

  /** An answer with an unsupported codec sets the remote description without the pending
      candidates: the next candidate overtakes them. */
  lemma UnsupportedCodecReorders(a: Candidate, b: Candidate)
    ensures var t := Run(Start(true, false), CodecRefused(a) + [RemoteICECandidate(b, false, Added)]);
            t.remote.arrived == [a, b] && t.remote.applied == [b] && t.remote.pending == [a]
  {
    AfterCodecRefused(a);
    RunExtends(Start(true, false), CodecRefused(a), RemoteICECandidate(b, false, Added));
  }

  lemma NextExchange(t: Transport, a: Candidate)
    requires t.isOfferer && t.state == Idle && !t.pc.closed && !t.failed && !t.local.caching
    requires t.remote == RemoteSide([a], [a], [])
    ensures var u := Step(t, SendOffer(AllOk));
            && !Disorders(t, SendOffer(AllOk)) && !Disorders(u, RemoteAnswer(AllOk))
            && Step(u, RemoteAnswer(AllOk)).remote == RemoteSide([], [a], [a]) && !Step(u, RemoteAnswer(AllOk)).failed
  {
    var u := Step(t, SendOffer(AllOk));
    assert u.pc.offerOutstanding && !u.pc.closed && u.remote == t.remote && u.state == WaitingForRemote && !u.failed;
    assert t.remote.pending[..1] == [a];
  }

  /** Candidates left waiting are in order still: where no other arrives, the next answer applies
      them. */
  lemma LeftWaitingIsNoDisorder(a: Candidate)
    ensures var es := CodecRefused(a) + [SendOffer(AllOk)] + [RemoteAnswer(AllOk)];
            var t := Run(Start(true, false), es);
            && t.remote == RemoteSide([], [a], [a]) && !t.failed
            && NothingDisorders(Start(true, false), es) && !NothingLeftWaiting(Start(true, false), es)
  {
    AfterCodecRefused(a);
    NextExchange(Run(Start(true, false), CodecRefused(a)), a);
    RunExtends(Start(true, false), CodecRefused(a), SendOffer(AllOk));
    RunExtends(Start(true, false), CodecRefused(a) + [SendOffer(AllOk)], RemoteAnswer(AllOk));
  }
}
