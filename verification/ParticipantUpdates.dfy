/**
 The queue of participant updates that a room broadcasts (pkg/rtc/room.go).  Updates of one
 identity may come from several sessions; sessions are ordered by CompareParticipant.
 */
module ParticipantUpdates {
  import Names
  import opened Wrappers

  /** What CompareParticipant reads of a ParticipantInfo; zero `ms` means unset. */
  datatype Session = Session(joinedAt: int, ms: int, sid: string)

  function Compare(a: Session, b: Session): int {
    if a.joinedAt != b.joinedAt then if a.joinedAt < b.joinedAt then -1 else 1
    else if a.ms != 0 && b.ms != 0 && a.ms != b.ms then if a.ms < b.ms then -1 else 1
    else if a.sid != b.sid then if Names.Less(a.sid, b.sid) then -1 else 1
    else 0
  }

  predicate Older(a: Session, b: Session) { Compare(a, b) < 0 }

  // ------------------------------------------------- order of the sessions

  /** Swapping the two swaps the answer; only equal sids leave two sessions undecided. */
  lemma CompareIsAntisymmetric(a: Session, b: Session)
    ensures Compare(a, b) == -Compare(b, a)
    ensures Compare(a, b) == 0 ==> a.sid == b.sid
  {
    Names.LessTotal(a.sid, b.sid);
  }

  /** The session that joined later is the newer one: by the second, by the millisecond where both have
      one, and otherwise by the sid. */
  lemma OlderIff(a: Session, b: Session)
    ensures a.joinedAt < b.joinedAt ==> Older(a, b)
    ensures a.joinedAt == b.joinedAt && 0 < a.ms < b.ms ==> Older(a, b)
    ensures a.joinedAt == b.joinedAt && (a.ms == 0 || b.ms == 0 || a.ms == b.ms) ==> (Older(a, b) <==> Names.Less(a.sid, b.sid))
  {
    Names.LessTotal(a.sid, b.sid);
  }

  /** Three sessions joined in the same second of which some have the milliseconds and some do not. */
  predicate Mixed(a: Session, b: Session, c: Session) {
    && a.joinedAt == b.joinedAt == c.joinedAt
    && ((a.ms == 0 && b.ms != 0 && c.ms != 0 && b.ms != c.ms)
        || (b.ms == 0 && a.ms != 0 && c.ms != 0 && a.ms != c.ms)
        || (c.ms == 0 && a.ms != 0 && b.ms != 0 && a.ms != b.ms))
  }

  ghost predicate Cycle(a: Session, b: Session, c: Session) {
    Older(a, b) && Older(b, c) && Older(c, a)
  }

  lemma NoCycleUnlessMixed(a: Session, b: Session, c: Session)
    requires Cycle(a, b, c)
    ensures Mixed(a, b, c)
  {
    assert a.joinedAt == b.joinedAt == c.joinedAt;
    Names.LessTotal(a.sid, b.sid);
    Names.LessTotal(b.sid, c.sid);
    Names.LessTotal(c.sid, a.sid);
    if Names.Less(a.sid, b.sid) && Names.Less(b.sid, c.sid) { Names.LessTransitive(a.sid, b.sid, c.sid); }
    if Names.Less(b.sid, c.sid) && Names.Less(c.sid, a.sid) { Names.LessTransitive(b.sid, c.sid, a.sid); }
    if Names.Less(c.sid, a.sid) && Names.Less(a.sid, b.sid) { Names.LessTransitive(c.sid, a.sid, b.sid); }
  }

  ghost predicate Times(a: Session, b: Session) { a.joinedAt == b.joinedAt && a.ms == b.ms }

  /** CompareParticipant can order three sessions in a circle exactly when their join times mix
      set and unset milliseconds in one second: otherwise no choice of sids does it. */
  lemma CyclicIffMixed(a: Session, b: Session, c: Session)
    ensures Mixed(a, b, c) <==> exists x, y, z :: Times(x, a) && Times(y, b) && Times(z, c) && (Cycle(x, y, z) || Cycle(x, z, y))
  {
    if x, y, z :| Times(x, a) && Times(y, b) && Times(z, c) && (Cycle(x, y, z) || Cycle(x, z, y)) {
      if Cycle(x, y, z) { NoCycleUnlessMixed(x, y, z); } else { NoCycleUnlessMixed(x, z, y); }
    }
    if Mixed(a, b, c) {
      var none, one, two := if a.ms == 0 then a else if b.ms == 0 then b else c,
                            if a.ms == 0 then b else a,
                            if c.ms == 0 then b else c;
      var low, high := if one.ms < two.ms then one.ms else two.ms, if one.ms < two.ms then two.ms else one.ms;
      var n, l, h := Session(a.joinedAt, 0, "2"), Session(a.joinedAt, low, "3"), Session(a.joinedAt, high, "1");
      var x := if a.ms == 0 then n else if a.ms == low then l else h;
      var y := if b.ms == 0 then n else if b.ms == low then l else h;
      var z := if c.ms == 0 then n else if c.ms == low then l else h;
      assert Times(x, a) && Times(y, b) && Times(z, c) && (Cycle(x, y, z) || Cycle(x, z, y));
    }
  }

  /** The milliseconds are set on all or on none. */
  ghost predicate Uniform(s: seq<Session>) {
    forall i, j :: 0 <= i < |s| && 0 <= j < |s| ==> (s[i].ms == 0 <==> s[j].ms == 0)
  }

  /** Then the order is transitive ... */
  lemma OlderTransitive(a: Session, b: Session, c: Session)
    requires Uniform([a, b, c]) && Older(a, b) && Older(b, c)
    ensures Older(a, c)
  {
    var s := [a, b, c];
    assert s[0].ms == 0 <==> s[1].ms == 0;
    assert s[1].ms == 0 <==> s[2].ms == 0;
    CompareIsAntisymmetric(a, c);
    if Older(c, a) { NoCycleUnlessMixed(a, b, c); }
    if Compare(a, c) == 0 {
      Names.LessTotal(a.sid, b.sid);
    }
  }

  /** ... and irreflexive and total, so it is a strict total order of the sessions. */
  lemma OlderIsTotal(a: Session, b: Session)
    ensures !Older(a, a) && !(Older(a, b) && Older(b, a))
    ensures a.sid != b.sid ==> Older(a, b) || Older(b, a)
    ensures Uniform([a, b]) && !Older(a, b) && !Older(b, a) ==> a == b
  {
    CompareIsAntisymmetric(a, b);
    var s := [a, b];
    if Uniform(s) { assert s[0].ms == 0 <==> s[1].ms == 0; }
  }

  /** A sid names one session. */
  ghost predicate SidsIdentify(s: seq<Session>) {
    forall i, j :: 0 <= i < |s| && 0 <= j < |s| && s[i].sid == s[j].sid ==> s[i] == s[j]
  }

  ghost predicate IsNewest(s: seq<Session>, n: Session) {
    forall x :: x in s ==> x == n || (x.sid != n.sid && Older(x, n))
  }

  /** So among any sessions there is a newest one. */
  lemma {:induction false} NewestExists(s: seq<Session>) returns (n: Session)
    requires s != [] && Uniform(s) && SidsIdentify(s)
    ensures n in s && IsNewest(s, n)
  {
    if |s| == 1 {
      n := s[0];
    } else {
      var front, last := s[..|s| - 1], s[|s| - 1];
      var m := NewestExists(front);
      CompareIsAntisymmetric(m, last);
      n := if Older(m, last) then last else m;
      forall x | x in s ensures x == n || (x.sid != n.sid && Older(x, n)) {
        CompareIsAntisymmetric(x, last);
        if Older(m, last) && x in front && x != m && Older(last, x) { NoCycleUnlessMixed(x, m, last); }
      }
    }
  }

  // ----------------------------------------------------------- the queue

  /** The parts of ParticipantInfo that matter here. */
  datatype Info = Info(session: Session, version: nat, isPublisher: bool, disconnected: bool)

  datatype Update = Update(info: Info, synthesized: bool, closeReason: int)

  /** What PushAndDequeueUpdates returns and leaves queued for the identity; None if the update is dropped. */
  datatype Pushed = Pushed(updates: seq<Update>, queued: Option<Update>, dropped: bool)

  /** PushAndDequeueUpdates for the entry of the identity; `current` is the room's participant. */
  function Push(pi: Info, closeReason: int, isImmediate: bool, current: Option<Session>, queued: Option<Update>): Pushed {
    var update := Update(pi, false, closeReason);
    var shouldSend := isImmediate || pi.isPublisher;
    match queued
    case Some(existing) =>
      if pi.session.sid == existing.info.session.sid then
        if pi.version < existing.info.version then Pushed([], queued, true)
        else if shouldSend then Pushed([update], None, false)
        else Pushed([], Some(update), false)
      else if Compare(existing.info.session, pi.session) < 0 then
        var ended := existing.(info := existing.info.(disconnected := true), synthesized := true);
        Pushed([ended, update], None, false)
      else Pushed([], queued, true)
    case None =>
      if current.Some? && Compare(current.value, pi.session) > 0 then Pushed([], None, true)
      else if shouldSend then Pushed([update], None, false)
      else Pushed([], Some(update), false)
  }

  // ---------------------------------------------------------------- runs

  /** One identity: the queued entry, everything handed out so far and every update accepted. */
  datatype System = System(queued: Option<Update>, out: seq<Update>, accepted: seq<Info>)

  datatype Event =
    | Pushes(pi: Info, closeReason: int, isImmediate: bool, current: Option<Session>)
    | Flush

  function Step(y: System, e: Event): System {
    match e
    case Pushes(pi, closeReason, isImmediate, current) =>
      var p := Push(pi, closeReason, isImmediate, current, y.queued);
      System(p.queued, y.out + p.updates, if p.dropped then y.accepted else y.accepted + [pi])
    case Flush =>
      if y.queued.Some? then y.(queued := None, out := y.out + [y.queued.value]) else y
  }

  const Start := System(None, [], [])

  function Run(y: System, es: seq<Event>): System {
    if es == [] then y else Step(Run(y, es[..|es| - 1]), es[|es| - 1])
  }

  lemma {:induction false} RunAppend(y: System, es: seq<Event>, fs: seq<Event>)
    ensures Run(y, es + fs) == Run(Run(y, es), fs)
  {
    if fs == [] {
      assert es + fs == es;
    } else {
      RunAppend(y, es, fs[..|fs| - 1]);
      assert (es + fs)[..|es + fs| - 1] == es + fs[..|fs| - 1];
    }
  }

  // -------------------------------------------------- the newest session

  ghost predicate CurrentAndNewest(fs: seq<Event>, n: Session) {
    forall i :: 0 <= i < |fs| && fs[i].Pushes? ==>
      && fs[i].current == Some(n)
      && (fs[i].pi.session == n || (fs[i].pi.session.sid != n.sid && Older(fs[i].pi.session, n)))
  }

  ghost predicate OnlyFrom(y: System, from: nat, n: Session) {
    && (y.queued.Some? ==> y.queued.value.info.session == n)
    && from <= |y.out|
    && forall k :: from <= k < |y.out| ==> y.out[k].info.session == n
  }

  lemma StepKeepsNewest(y: System, e: Event, from: nat, n: Session)
    requires OnlyFrom(y, from, n) && CurrentAndNewest([e], n)
    ensures OnlyFrom(Step(y, e), from, n) && y.out <= Step(y, e).out
  {
    assert [e][0] == e;
    if e.Pushes? { CompareIsAntisymmetric(e.pi.session, n); }
  }

  lemma {:induction false} RunKeepsNewest(y: System, fs: seq<Event>, from: nat, n: Session)
    requires OnlyFrom(y, from, n) && CurrentAndNewest(fs, n)
    ensures OnlyFrom(Run(y, fs), from, n) && y.out <= Run(y, fs).out
  {
    if fs != [] {
      RunKeepsNewest(y, fs[..|fs| - 1], from, n);
      StepKeepsNewest(Run(y, fs[..|fs| - 1]), fs[|fs| - 1], from, n);
    }
  }

  /** From the moment an update of the newest session is accepted, and as long as the room's
      participant is that session, nothing of an older session is queued or handed out. */
  lemma {:induction false} NewestSessionWins(es: seq<Event>, push: Event, fs: seq<Event>, n: Session)
    requires push.Pushes? && push.pi.session == n
    requires var y := Run(Start, es); Step(y, push).accepted != y.accepted
    requires CurrentAndNewest(fs, n)
    ensures var y := Step(Run(Start, es), push);
            var z := Run(Start, es + [push] + fs);
            y.out <= z.out && OnlyFrom(z, |y.out|, n)
  {
    var y := Step(Run(Start, es), push);
    assert (es + [push])[..|es|] == es;
    assert Run(Start, es + [push]) == y;
    RunAppend(Start, es + [push], fs);
    RunKeepsNewest(y, fs, |y.out|, n);
  }

  // ----------------------------------------------------- nothing is lost

  /** A version of the session at least as new. */
  predicate Covers(u: Update, pi: Info) {
    u.info.session.sid == pi.session.sid && u.info.version >= pi.version
  }

  ghost predicate Reached(y: System, pi: Info) {
    (y.queued.Some? && Covers(y.queued.value, pi)) || exists u :: u in y.out && Covers(u, pi)
  }

  /** An accepted update, or one marked as disconnected on a change of session. */
  ghost predicate Accounted(u: Update, accepted: seq<Info>) {
    || u.info in accepted
    || (u.synthesized && u.info.(disconnected := false) in accepted)
  }

  ghost predicate Inv(y: System) {
    && (forall pi :: pi in y.accepted ==> Reached(y, pi))
    && (forall u :: u in y.out ==> Accounted(u, y.accepted))
    && (y.queued.Some? ==> y.queued.value.info in y.accepted && !y.queued.value.synthesized)
    && (forall k :: 0 <= k < |y.out| && y.out[k].synthesized ==> Switch(y.out, k))
  }

  /** A synthesized disconnect is followed at once by the newer session that caused it. */
  ghost predicate Switch(out: seq<Update>, k: nat)
    requires k < |out|
  {
    && out[k].info.disconnected
    && k + 1 < |out| && !out[k + 1].synthesized && Older(out[k].info.session, out[k + 1].info.session)
  }

  lemma StepKeepsReached(y: System, e: Event, pi: Info)
    requires Reached(y, pi) || (e.Pushes? && pi == e.pi && Step(y, e).accepted != y.accepted)
    ensures Reached(Step(y, e), pi)
  {
    var z := Step(y, e);
    if u :| u in y.out && Covers(u, pi) {
      assert u in z.out;
    } else if e.Flush? {
      assert y.queued.Some? ==> z.out[|y.out|] == y.queued.value;
    } else {
      var p := Push(e.pi, e.closeReason, e.isImmediate, e.current, y.queued);
      if p.updates != [] {
        assert p.updates[0] in z.out && p.updates[|p.updates| - 1] in z.out;
      }
    }
  }

  lemma StepKeepsInv(y: System, e: Event)
    requires Inv(y)
    ensures Inv(Step(y, e))
  {
    var z := Step(y, e);
    forall pi | pi in z.accepted ensures Reached(z, pi) { StepKeepsReached(y, e, pi); }
    forall u | u in z.out ensures Accounted(u, z.accepted) {}
  }

  lemma {:induction false} RunKeepsInv(es: seq<Event>)
    ensures Inv(Run(Start, es))
  {
    if es != [] {
      RunKeepsInv(es[..|es| - 1]);
      StepKeepsInv(Run(Start, es[..|es| - 1]), es[|es| - 1]);
    }
  }

  /** Every accepted update is handed out or still queued, itself or in a later version of its session. */
  lemma {:induction false} AcceptedReachesOutput(es: seq<Event>, pi: Info)
    requires pi in Run(Start, es).accepted
    ensures Reached(Run(Start, es), pi)
  {
    RunKeepsInv(es);
  }

  /** Every update handed out was accepted; a synthesized disconnect is the last queued update
      of an ended session, marked, and directly followed by the newer session. */
  lemma {:induction false} OutputIsAccounted(es: seq<Event>, k: nat)
    requires k < |Run(Start, es).out|
    ensures var y := Run(Start, es);
            && Accounted(y.out[k], y.accepted)
            && (y.out[k].synthesized ==> Switch(y.out, k))
  {
    RunKeepsInv(es);
    var y := Run(Start, es);
    assert y.out[k] in y.out;
  }

  /** An update is dropped only when it is stale: the same session has already been accepted in a
      higher version, or a newer session has been accepted or is the room's participant. */
  lemma {:induction false} DroppedOnlyIfStale(es: seq<Event>, e: Event)
    requires e.Pushes?
    requires var y := Run(Start, es); Step(y, e).accepted == y.accepted
    ensures var y := Run(Start, es);
            || (exists pi :: pi in y.accepted && pi.session.sid == e.pi.session.sid && pi.version > e.pi.version)
            || (exists pi :: pi in y.accepted && Older(e.pi.session, pi.session))
            || (e.current.Some? && Older(e.pi.session, e.current.value))
  {
    RunKeepsInv(es);
    var y := Run(Start, es);
    assert Push(e.pi, e.closeReason, e.isImmediate, e.current, y.queued).dropped;
    if y.queued.Some? {
      CompareIsAntisymmetric(y.queued.value.info.session, e.pi.session);
      assert y.queued.value.info in y.accepted;
    } else {
      CompareIsAntisymmetric(e.current.value, e.pi.session);
    }
  }

  /** An accepted update is handed out at once, emptying the queue, when it is immediate, of a
      publisher or of a session newer than the queued one; otherwise it waits and nothing goes out. */
  lemma {:induction false} AcceptedGoesOutOrWaits(y: System, e: Event)
    requires e.Pushes? && Step(y, e).accepted != y.accepted
    ensures var z := Step(y, e);
            var update := Update(e.pi, false, e.closeReason);
            if e.isImmediate || e.pi.isPublisher || (y.queued.Some? && y.queued.value.info.session.sid != e.pi.session.sid)
            then z.queued.None? && z.out != [] && z.out[|z.out| - 1] == update
            else z.queued == Some(update) && z.out == y.out
  {
    var p := Push(e.pi, e.closeReason, e.isImmediate, e.current, y.queued);
    assert p.updates == [] ==> y.out + p.updates == y.out;
  }

  /** An update is accepted exactly when it is not behind the queued one of its session, or its session is
      newer than the queued one, or with nothing queued not older than the room's participant. */
  lemma AcceptedIff(y: System, e: Event)
    requires e.Pushes?
    ensures Step(y, e).accepted == y.accepted + [e.pi] <==>
              if y.queued.Some? then
                var queued := y.queued.value.info;
                if queued.session.sid == e.pi.session.sid then queued.version <= e.pi.version
                else Older(queued.session, e.pi.session)
              else e.current.Some? ==> !Older(e.pi.session, e.current.value)
    ensures Step(y, e).accepted == y.accepted + [e.pi] || Step(y, e) == y
  {
    if e.current.Some? { CompareIsAntisymmetric(e.current.value, e.pi.session); }
    assert y.out + [] == y.out;
  }

  /** When a newer session takes over from a queued one, the older one is handed out as disconnected,
      marked so, and the newer one right behind it. */
  lemma NewSessionEndsOlder(y: System, e: Event)
    requires e.Pushes? && y.queued.Some? && y.queued.value.info.session.sid != e.pi.session.sid
    requires Older(y.queued.value.info.session, e.pi.session)
    ensures var queued, z := y.queued.value, Step(y, e);
            && z.queued.None? && |z.out| == |y.out| + 2 && y.out <= z.out
            && z.out[|y.out|] == Update(queued.info.(disconnected := true), true, queued.closeReason)
            && z.out[|y.out| + 1] == Update(e.pi, false, e.closeReason)
  {
  }

  // --------------------------------------------------------------- object

  datatype Identity = Identity(text: string)

  /** The queue of the room, by identity. */
  class UpdateQueue {
    var batchedUpdates: map<Identity, Update>

    constructor ()
      ensures batchedUpdates == map[]
    {
      batchedUpdates := map[];
    }

    ghost function Queued(identity: Identity): Option<Update>
      reads this
    {
      if identity in batchedUpdates then Some(batchedUpdates[identity]) else None
    }

    method PushAndDequeueUpdates(identity: Identity, pi: Info, closeReason: int, isImmediate: bool, current: Option<Session>)
      returns (updates: seq<Update>)
      modifies this
      ensures updates == Push(pi, closeReason, isImmediate, current, old(Queued(identity))).updates
      ensures Queued(identity) == Push(pi, closeReason, isImmediate, current, old(Queued(identity))).queued
      ensures forall other :: other != identity ==> Queued(other) == old(Queued(other))
    {
      updates := [];
      var shouldSend := isImmediate || pi.isPublisher;
      if identity in batchedUpdates {
        var existing := batchedUpdates[identity];
        if pi.session.sid == existing.info.session.sid {
          if pi.version < existing.info.version {
            return;
          }
        } else if Compare(existing.info.session, pi.session) < 0 {
          shouldSend := true;
          updates := [existing.(info := existing.info.(disconnected := true), synthesized := true)];
        } else {
          return;
        }
      } else if current.Some? && Compare(current.value, pi.session) > 0 {
        return;
      }
      if shouldSend {
        batchedUpdates := batchedUpdates - {identity};
        updates := updates + [Update(pi, false, closeReason)];
      } else {
        batchedUpdates := batchedUpdates[identity := Update(pi, false, closeReason)];
      }
    }

    /** The tick of changeUpdateWorker: the whole queue is taken and sent. */
    method TakeBatch() returns (batch: map<Identity, Update>)
      modifies this
      ensures batch == old(batchedUpdates) && batchedUpdates == map[]
    {
      batch, batchedUpdates := batchedUpdates, map[];
    }
  }
}
