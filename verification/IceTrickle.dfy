/**
 Sending local ICE candidates to the client with a delay of one (pkg/rtc/participant_signal.go):
 per signal target a slot keeps the last candidate until the next call shows whether it was
 the final one.  The nil candidate that ends gathering is None here.

 Calls for the two targets may interleave in any way; a run records what each target was
 handed and what it was sent.
 */
module IceTrickle {
  import opened Wrappers

  datatype Target = PublisherTarget | SubscriberTarget

  function Slot(target: Target): nat {
    if target == PublisherTarget then 0 else 1
  }

  datatype Candidate = Candidate(text: string)

  datatype Trickle = Trickle(candidate: Candidate, target: Target, isFinal: bool)

  datatype Call = Call(target: Target, ic: Option<Candidate>)

  /** sendICECandidate: what is kept, and what is sent. */
  function Send(kept: Option<Candidate>, target: Target, ic: Option<Candidate>): (Option<Candidate>, seq<Trickle>) {
    (ic, if kept.None? then [] else [Trickle(kept.value, target, ic.None?)])
  }

  /** Both slots, and everything sent. */
  datatype Queue = Queue(publisher: Option<Candidate>, subscriber: Option<Candidate>, sent: seq<Trickle>)

  function Step(q: Queue, c: Call): Queue {
    if c.target == PublisherTarget then
      var (kept, out) := Send(q.publisher, c.target, c.ic);
      Queue(kept, q.subscriber, q.sent + out)
    else
      var (kept, out) := Send(q.subscriber, c.target, c.ic);
      Queue(q.publisher, kept, q.sent + out)
  }

  const Start := Queue(None, None, [])

  function Run(q: Queue, calls: seq<Call>): Queue {
    if calls == [] then q else Step(Run(q, calls[..|calls| - 1]), calls[|calls| - 1])
  }

  // ------------------------------------------------- the two targets apart

  function CallsFor(calls: seq<Call>, target: Target): seq<Option<Candidate>> {
    if calls == [] then []
    else
      var rest, last := CallsFor(calls[..|calls| - 1], target), calls[|calls| - 1];
      if last.target == target then rest + [last.ic] else rest
  }

  function SentTo(sent: seq<Trickle>, target: Target): seq<Trickle> {
    if sent == [] then []
    else
      var rest, last := SentTo(sent[..|sent| - 1], target), sent[|sent| - 1];
      if last.target == target then rest + [last] else rest
  }

  /** What a list of candidates should become: each candidate that has a successor, flagged
      final when that successor is the end mark. */
  function Expected(ics: seq<Option<Candidate>>, target: Target): seq<Trickle> {
    if |ics| < 2 then []
    else Pair(ics[0], ics[1], target) + Expected(ics[1..], target)
  }

  function Pair(ic: Option<Candidate>, next: Option<Candidate>, target: Target): seq<Trickle> {
    if ic.Some? then [Trickle(ic.value, target, next.None?)] else []
  }

  function Kept(q: Queue, target: Target): Option<Candidate> {
    if target == PublisherTarget then q.publisher else q.subscriber
  }

  lemma {:induction false} ExpectedGrows(ics: seq<Option<Candidate>>, ic: Option<Candidate>, target: Target)
    requires ics != []
    ensures Expected(ics + [ic], target)
            == Expected(ics, target) + Pair(ics[|ics| - 1], ic, target)
  {
    if |ics| == 1 {
      assert (ics + [ic])[1..] == [ic];
    } else {
      var rest, first, last := ics[1..], Pair(ics[0], ics[1], target), Pair(ics[|ics| - 1], ic, target);
      ExpectedGrows(rest, ic, target);
      assert (ics + [ic])[1..] == rest + [ic] && rest[|rest| - 1] == ics[|ics| - 1];
      assert Expected(ics, target) == first + Expected(rest, target);
      assert first + (Expected(rest, target) + last) == (first + Expected(rest, target)) + last;
    }
  }

  lemma {:induction false} SentToAppend(sent: seq<Trickle>, more: seq<Trickle>, target: Target)
    requires |more| <= 1
    ensures SentTo(sent + more, target) == SentTo(sent, target) + SentTo(more, target)
  {
    if more == [] {
      assert sent + more == sent;
    } else {
      assert (sent + more)[..|sent|] == sent && more[..0] == [];
    }
  }

  /** One more call for `target` extends what it is sent by what that call sends. */
  lemma OneMoreCall(ics: seq<Option<Candidate>>, ic: Option<Candidate>, target: Target)
    ensures Expected(ics + [ic], target)
            == Expected(ics, target) + Send(if ics == [] then None else ics[|ics| - 1], target, ic).1
  {
    if ics == [] {
      assert ics + [ic] == [ic];
    } else {
      ExpectedGrows(ics, ic, target);
    }
  }

  lemma StepSends(q: Queue, c: Call, target: Target)
    ensures SentTo(Step(q, c).sent, target)
            == SentTo(q.sent, target) + if c.target == target then Send(Kept(q, target), target, c.ic).1 else []
    ensures Kept(Step(q, c), target) == if c.target == target then c.ic else Kept(q, target)
  {
    var more := Send(Kept(q, c.target), c.target, c.ic).1;
    SentToAppend(q.sent, more, target);
    assert more != [] ==> more[..0] == [];
  }

  /** For any interleaving of calls, each target is sent exactly what its own calls call for,
      and keeps its last candidate. */
  lemma {:induction false} SentAsExpected(calls: seq<Call>, target: Target)
    ensures var q, ics := Run(Start, calls), CallsFor(calls, target);
            && SentTo(q.sent, target) == Expected(ics, target)
            && Kept(q, target) == if ics == [] then None else ics[|ics| - 1]
  {
    if calls != [] {
      var front, last := calls[..|calls| - 1], calls[|calls| - 1];
      SentAsExpected(front, target);
      StepSends(Run(Start, front), last, target);
      if last.target == target { OneMoreCall(CallsFor(front, target), last.ic, target); }
    }
  }

  function Gathered(cs: seq<Candidate>): seq<Option<Candidate>> {
    seq(|cs|, i requires 0 <= i < |cs| => Some(cs[i]))
  }

  lemma {:induction false} ExpectedOfGathering(cs: seq<Candidate>, target: Target)
    ensures Expected(Gathered(cs) + [None], target) == seq(|cs|, i requires 0 <= i < |cs| => Trickle(cs[i], target, i == |cs| - 1))
  {
    if cs != [] {
      ExpectedOfGathering(cs[1..], target);
      assert (Gathered(cs) + [None])[1..] == Gathered(cs[1..]) + [None];
    }
  }

  /** A gathering of candidates c1 .. cn that then ends is sent as c1 .. cn in order, with the
      final flag on cn only, whatever the other target does meanwhile. */
  lemma {:induction false} FinalFlagOnLastOnly(calls: seq<Call>, target: Target, cs: seq<Candidate>)
    requires CallsFor(calls, target) == Gathered(cs) + [None]
    ensures SentTo(Run(Start, calls).sent, target)
            == seq(|cs|, i requires 0 <= i < |cs| => Trickle(cs[i], target, i == |cs| - 1))
    ensures Kept(Run(Start, calls), target) == None
  {
    SentAsExpected(calls, target);
    ExpectedOfGathering(cs, target);
  }

  // --------------------------------------------------------------- object

  class IceQueue {
    const slots: array<Option<Candidate>>
    ghost var sent: seq<Trickle>

    ghost predicate Valid()
      reads this
    {
      slots.Length == 2
    }

    ghost function State(): Queue
      requires Valid()
      reads this, slots
    {
      Queue(slots[0], slots[1], sent)
    }

    constructor ()
      ensures Valid() && fresh(slots) && State() == Start
    {
      slots := new Option<Candidate>[2](_ => None);
      sent := [];
    }

    method SendICECandidate(ic: Option<Candidate>, target: Target) returns (trickle: Option<Trickle>)
      requires Valid()
      modifies slots, `sent
      ensures Valid() && State() == Step(old(State()), Call(target, ic))
      ensures sent == old(sent) + if trickle.Some? then [trickle.value] else []
    {
      var prevIC := slots[Slot(target)];
      slots[Slot(target)] := ic;
      if prevIC.None? {
        return None;
      }
      trickle := Some(Trickle(prevIC.value, target, ic.None?));
      sent := sent + [trickle.value];
    }
  }
}
