/**
 Participant updates around the JoinResponse (pkg/rtc/participant_signal.go).  An update is
 admitted under `updateLock`; the JoinResponse itself is written outside it, between a locked
 region that records the participants it announces and one that opens the gate.
 */
module JoinUpdates {
  import opened Wrappers

  // Each locked region and the write are one step each, so updates may fall anywhere between.

  /** A participant session id. */
  datatype Sid = Sid(text: string)

  datatype Info = Info(sid: Sid, version: nat, hidden: bool)

  datatype Phase = Joining | Joined | Active | Disconnected

  function Rank(p: Phase): nat {
    match p
    case Joining => 0
    case Joined => 1
    case Active => 2
    case Disconnected => 3
  }

  /** How far SendJoinResponse has come. */
  datatype JoinProgress = NotBegun | Announced | Written | HandingOver(queued: seq<Info>) | Done | Failed

  /** The participant, with everything it was offered while connected, admitted and announced. */
  datatype Participant = Participant(
    own: Sid,
    migrating: bool,
    phase: Phase,
    cache: map<Sid, nat>,
    queuedUpdates: seq<Info>,
    join: JoinProgress,
    offered: seq<Info>,
    admitted: seq<Info>,
    announced: map<Sid, nat>)

  /** updateState: the state only moves forward. */
  function UpdateState(p: Participant, phase: Phase): Participant {
    if Rank(phase) <= Rank(p.phase) then p else p.(phase := phase)
  }

  predicate IsReady(p: Participant) {
    if p.migrating then p.phase != Disconnected else p.phase == Joined || p.phase == Active
  }

  predicate Outdated(cache: map<Sid, nat>, pi: Info) { pi.sid in cache && pi.version < cache[pi.sid] }

  predicate HiddenFrom(own: Sid, pi: Info) { pi.hidden && pi.sid != own }

  /** One round of the loop in SendParticipantUpdate. */
  function Admit(p: Participant, pi: Info): Participant {
    if Outdated(p.cache, pi) || HiddenFrom(p.own, pi) then p
    else p.(cache := p.cache[pi.sid := pi.version], admitted := p.admitted + [pi])
  }

  function AdmitAll(p: Participant, updates: seq<Info>): Participant {
    if updates == [] then p else Admit(AdmitAll(p, updates[..|updates| - 1]), updates[|updates| - 1])
  }

  function SendParticipantUpdate(p: Participant, updates: seq<Info>): Participant {
    if p.phase == Disconnected then p
    else if !IsReady(p) then p.(queuedUpdates := p.queuedUpdates + updates)
    else AdmitAll(p, updates)
  }

  function Record(cache: map<Sid, nat>, others: seq<Info>): map<Sid, nat> {
    if others == [] then cache
    else Record(cache, others[..|others| - 1])[others[|others| - 1].sid := others[|others| - 1].version]
  }

  /** The first locked region of SendJoinResponse. */
  function Announce(p: Participant, others: seq<Info>): Participant {
    p.(cache := Record(p.cache, others), announced := Record(map[], others), join := Announced)
  }

  /** The second one; the queued updates are then sent without the lock. */
  function OpenGate(p: Participant): Participant {
    UpdateState(p, Joined).(queuedUpdates := [], join := HandingOver(p.queuedUpdates))
  }

  // ---------------------------------------------------------------- runs

  datatype Event =
    | JoinBegins(others: seq<Info>)
    | JoinWritten(ok: bool)
    | JoinFinishes
    | QueueSent
    | Offer(updates: seq<Info>)
    | Activates
    | Disconnects

  /** A migrating participant has no JoinResponse; others have one. */
  function Step(p: Participant, e: Event): Participant {
    match e
    case JoinBegins(others) =>
      if p.migrating || !p.join.NotBegun? then p else Announce(p, others)
    case JoinWritten(ok) => if p.join.Announced? then p.(join := if ok then Written else Failed) else p
    case JoinFinishes => if p.join.Written? then OpenGate(p) else p
    case QueueSent =>
      if p.join.HandingOver? then SendParticipantUpdate(p, p.join.queued).(join := Done) else p
    case Offer(updates) =>
      var q := SendParticipantUpdate(p, updates);
      if p.phase == Disconnected then q else q.(offered := q.offered + updates)
    case Activates => UpdateState(p, Active)
    case Disconnects => UpdateState(p, Disconnected)
  }

  function Start(own: Sid, migrating: bool): Participant {
    Participant(own, migrating, Joining, map[], [], NotBegun, [], [], map[])
  }

  function Run(p: Participant, es: seq<Event>): Participant {
    if es == [] then p else Step(Run(p, es[..|es| - 1]), es[|es| - 1])
  }

  // ------------------------------------------------------------ invariant

  ghost predicate IsJoinWritten(p: Participant) {
    p.join.Written? || p.join.HandingOver? || p.join.Done?
  }

  /** The cache holds versions admitted or announced, and one for everyone admitted. */
  ghost predicate Recorded(p: Participant) {
    && (forall sid :: sid in p.cache ==> Seen(p, sid, p.cache[sid]))
    && (forall x :: x in p.admitted ==> x.sid in p.cache)
  }

  ghost predicate Seen(p: Participant, sid: Sid, version: nat) {
    || (sid in p.announced && p.announced[sid] == version)
    || exists pi :: pi in p.admitted && pi.sid == sid && pi.version == version
  }

  /** Once SendJoinResponse has taken the queue nothing is queued, and never when migrating. */
  ghost predicate Gate(p: Participant) {
    && (p.join.NotBegun? ==> p.announced == map[])
    && (p.join.HandingOver? || p.join.Done? ==> p.phase != Joining && p.queuedUpdates == [])
    && (p.migrating ==> p.queuedUpdates == [] && p.join.NotBegun?)
  }

  /** An older version than one admitted or announced. */
  ghost predicate Overtaken(p: Participant, pi: Info) {
    || (pi.sid in p.announced && pi.version < p.announced[pi.sid])
    || exists x :: x in p.admitted && x.sid == pi.sid && pi.version < x.version
  }

  /** An update that needs no further sending. */
  ghost predicate Settled(p: Participant, pi: Info) {
    pi in p.admitted || HiddenFrom(p.own, pi) || Overtaken(p, pi)
  }

  /** An update still in the queue, or in the hands of SendJoinResponse. */
  ghost predicate Waiting(p: Participant, pi: Info) {
    pi in p.queuedUpdates || (p.join.HandingOver? && pi in p.join.queued)
  }

  ghost predicate Kept(p: Participant) {
    p.phase != Disconnected ==> forall pi :: pi in p.offered ==> Settled(p, pi) || Waiting(p, pi)
  }

  ghost predicate Inv(p: Participant) {
    Recorded(p) && Gate(p) && Kept(p)
  }

  lemma AdmitKeepsRecorded(p: Participant, pi: Info)
    requires Recorded(p)
    ensures var q := Admit(p, pi);
            && Recorded(q) && Settled(q, pi)
            && (forall x :: Settled(p, x) ==> Settled(q, x))
  {
    var q := Admit(p, pi);
    if q != p {
      assert q.admitted[|p.admitted|] == pi;
      assert forall x :: x in p.admitted ==> x in q.admitted;
      forall sid | sid in q.cache ensures Seen(q, sid, q.cache[sid]) {
        if sid != pi.sid { assert Seen(p, sid, p.cache[sid]); } else { assert pi in q.admitted; }
      }
    } else if Outdated(p.cache, pi) {
      assert Seen(p, pi.sid, p.cache[pi.sid]);
    }
  }

  lemma {:induction false} AdmitAllKeeps(p: Participant, updates: seq<Info>)
    requires Recorded(p)
    ensures var q := AdmitAll(p, updates);
            && Recorded(q) && q == p.(cache := q.cache, admitted := q.admitted)
            && (forall x :: Settled(p, x) || x in updates ==> Settled(q, x))
  {
    if updates != [] {
      var front, pi := updates[..|updates| - 1], updates[|updates| - 1];
      AdmitAllKeeps(p, front);
      AdmitKeepsRecorded(AdmitAll(p, front), pi);
      assert forall x :: x in updates ==> x in front || x == pi;
    }
  }

  /** Nothing offered gets lost in SendParticipantUpdate. */
  lemma SendKeeps(p: Participant, updates: seq<Info>)
    requires Recorded(p)
    ensures var q := SendParticipantUpdate(p, updates);
            && Recorded(q)
            && q == p.(cache := q.cache, admitted := q.admitted, queuedUpdates := q.queuedUpdates)
            && (p.phase != Disconnected ==>
                  && (forall x :: Settled(p, x) ==> Settled(q, x))
                  && (forall x :: x in p.queuedUpdates ==> x in q.queuedUpdates)
                  && (forall x :: x in updates ==> Settled(q, x) || x in q.queuedUpdates))
            && (IsReady(p) || p.phase == Disconnected ==> q.queuedUpdates == p.queuedUpdates)
            && (IsReady(p) ==> forall x :: x in updates ==> Settled(q, x))
  {
    if IsReady(p) { AdmitAllKeeps(p, updates); }
  }

  /** An update that the participant is to see, and not yet in a later version. */
  ghost predicate Visible(p: Participant, updates: seq<Info>) {
    exists x :: x in updates && !HiddenFrom(p.own, x) && !Outdated(p.cache, x)
  }

  lemma {:induction false} AdmitAllKeepsAdmitted(p: Participant, updates: seq<Info>)
    ensures p.admitted <= AdmitAll(p, updates).admitted
    ensures AdmitAll(p, updates).admitted == p.admitted ==> AdmitAll(p, updates) == p
    ensures AdmitAll(p, updates).own == p.own
  {
    if updates != [] { AdmitAllKeepsAdmitted(p, updates[..|updates| - 1]); }
  }

  /** Of a list of updates something is admitted exactly when one is visible. */
  lemma {:induction false} AdmitsIffVisible(p: Participant, updates: seq<Info>)
    ensures AdmitAll(p, updates).admitted != p.admitted <==> Visible(p, updates)
  {
    if updates != [] {
      var front, last := updates[..|updates| - 1], updates[|updates| - 1];
      AdmitsIffVisible(p, front);
      AdmitAllKeepsAdmitted(p, front);
      assert forall x :: x in updates <==> x in front || x == last;
      var q := AdmitAll(p, front);
      if q.admitted == p.admitted {
        assert q == p;
        assert Visible(p, updates) <==> !HiddenFrom(p.own, last) && !Outdated(p.cache, last);
      } else {
        assert q.admitted <= Admit(q, last).admitted;
        assert |q.admitted| > |p.admitted|;
      }
    }
  }

  /** A visible update is offered to an active participant whose JoinResponse has not been written. */
  ghost predicate OfferedEarly(p: Participant, e: Event) {
    e.Offer? && p.phase == Active && !IsJoinWritten(p) && Visible(p, e.updates)
  }

  ghost predicate OffersEarly(start: Participant, es: seq<Event>) {
    es != [] && (OffersEarly(start, es[..|es| - 1]) || OfferedEarly(Run(start, es[..|es| - 1]), es[|es| - 1]))
  }

  /** The history of what was offered does not matter to what is admitted. */
  lemma SameRecords(p: Participant, q: Participant)
    requires q.own == p.own && q.cache == p.cache && q.admitted == p.admitted && q.announced == p.announced
    ensures Recorded(p) ==> Recorded(q)
    ensures forall x :: Settled(p, x) ==> Settled(q, x)
  {
    if Recorded(p) {
      forall sid | sid in q.cache ensures Seen(q, sid, q.cache[sid]) { assert Seen(p, sid, p.cache[sid]); }
    }
  }

  lemma OfferKeepsInv(p: Participant, updates: seq<Info>)
    requires Inv(p)
    ensures Inv(Step(p, Offer(updates)))
  {
    SendKeeps(p, updates);
    SameRecords(SendParticipantUpdate(p, updates), Step(p, Offer(updates)));
  }

  lemma QueueSentKeepsInv(p: Participant)
    requires Inv(p) && p.join.HandingOver?
    ensures Inv(Step(p, QueueSent))
  {
    SendKeeps(p, p.join.queued);
    SameRecords(SendParticipantUpdate(p, p.join.queued), Step(p, QueueSent));
  }

  lemma {:induction false} RecordHolds(cache: map<Sid, nat>, others: seq<Info>)
    ensures var recorded, announced := Record(cache, others), Record(map[], others);
            && recorded.Keys == cache.Keys + announced.Keys
            && forall sid :: sid in recorded ==> recorded[sid] == if sid in announced then announced[sid] else cache[sid]
  {
    if others != [] { RecordHolds(cache, others[..|others| - 1]); }
  }

  /** Updates may have been admitted before; they still overtake what they overtook. */
  lemma AnnounceKeepsInv(p: Participant, others: seq<Info>)
    requires Inv(p) && !p.migrating && p.join.NotBegun?
    ensures Inv(Step(p, JoinBegins(others)))
  {
    var q := Step(p, JoinBegins(others));
    RecordHolds(p.cache, others);
    forall sid | sid in q.cache ensures Seen(q, sid, q.cache[sid]) {
      if sid !in q.announced { assert Seen(p, sid, p.cache[sid]); }
    }
    forall x | Settled(p, x) ensures Settled(q, x) {}
  }

  lemma ProgressKeepsInv(p: Participant, e: Event)
    requires Inv(p) && (e.JoinWritten? || e.JoinFinishes? || e.Activates? || e.Disconnects?)
    ensures Inv(Step(p, e))
  {
    SameRecords(p, Step(p, e));
  }

  lemma StepKeepsInv(p: Participant, e: Event)
    requires Inv(p)
    ensures Inv(Step(p, e))
  {
    if e.Offer? {
      OfferKeepsInv(p, e.updates);
    } else if e.QueueSent? {
      if p.join.HandingOver? { QueueSentKeepsInv(p); }
    } else if e.JoinBegins? {
      if !p.migrating && p.join.NotBegun? { AnnounceKeepsInv(p, e.others); }
    } else {
      ProgressKeepsInv(p, e);
    }
  }

  lemma {:induction false} AdmitAllFrame(p: Participant, updates: seq<Info>)
    ensures var q := AdmitAll(p, updates); q == p.(cache := q.cache, admitted := q.admitted)
  {
    if updates != [] { AdmitAllFrame(p, updates[..|updates| - 1]); }
  }

  lemma StepKeepsIdentity(p: Participant, e: Event)
    ensures Step(p, e).own == p.own && Step(p, e).migrating == p.migrating
  {
    if e.Offer? { AdmitAllFrame(p, e.updates); }
    if e.QueueSent? && p.join.HandingOver? { AdmitAllFrame(p, p.join.queued); }
  }

  /** No visible update is offered to a participant that is active before its JoinResponse is
      written; a migrating one has no JoinResponse. */
  ghost predicate Timely(start: Participant, es: seq<Event>) {
    start.migrating || !OffersEarly(start, es)
  }

  lemma {:induction false} RunKeepsInv(own: Sid, migrating: bool, es: seq<Event>)
    ensures var p := Run(Start(own, migrating), es); Inv(p) && p.own == own && p.migrating == migrating
  {
    if es != [] {
      var front, e := es[..|es| - 1], es[|es| - 1];
      RunKeepsInv(own, migrating, front);
      StepKeepsInv(Run(Start(own, migrating), front), e);
      StepKeepsIdentity(Run(Start(own, migrating), front), e);
    }
  }

  // -------------------------------------------------------- main results

  /** A client that becomes active only after its JoinResponse is written is such a one. */
  lemma {:induction false} ActiveAfterJoinIsTimely(own: Sid, es: seq<Event>)
    requires forall i :: 0 <= i < |es| && es[i].Activates? ==> IsJoinWritten(Run(Start(own, false), es[..i]))
    ensures Timely(Start(own, false), es)
    ensures var p := Run(Start(own, false), es); p.phase == Active ==> IsJoinWritten(p)
  {
    if es != [] {
      var front, e := es[..|es| - 1], es[|es| - 1];
      forall i | 0 <= i < |front| ensures front[..i] == es[..i] {}
      ActiveAfterJoinIsTimely(own, front);
      StepKeepsPhase(Run(Start(own, false), front), e);
    }
  }

  /** At some point of the run something is admitted and the JoinResponse is not written. */
  ghost predicate AdmitsEarly(start: Participant, es: seq<Event>) {
    || (Run(start, es).admitted != [] && !IsJoinWritten(Run(start, es)))
    || (es != [] && AdmitsEarly(start, es[..|es| - 1]))
  }

  /** Without a premise: before the JoinResponse is written the participant is not Joined, and its
      SendJoinResponse holds no queue. */
  lemma {:induction false} NotJoinedEarly(own: Sid, es: seq<Event>)
    ensures var p := Run(Start(own, false), es); !p.migrating && (!IsJoinWritten(p) ==> p.phase != Joined)
  {
    if es != [] {
      NotJoinedEarly(own, es[..|es| - 1]);
      StepKeepsIdentity(Run(Start(own, false), es[..|es| - 1]), es[|es| - 1]);
      StepKeepsPhase(Run(Start(own, false), es[..|es| - 1]), es[|es| - 1]);
    }
  }

  lemma StepKeepsPhase(p: Participant, e: Event)
    ensures Step(p, e).phase == p.phase || e.JoinFinishes? || e.Activates? || e.Disconnects?
    ensures IsJoinWritten(p) ==> IsJoinWritten(Step(p, e))
    ensures e.Offer? ==> Step(p, e).join == p.join
  {
    if e.Offer? { AdmitAllFrame(p, e.updates); }
    if e.QueueSent? && p.join.HandingOver? { AdmitAllFrame(p, p.join.queued); }
  }

  /** While the JoinResponse is not written, a step begins to admit exactly on such an offer. */
  lemma StepAdmitsEarly(p: Participant, e: Event)
    requires !p.migrating && !IsJoinWritten(p) && p.phase != Joined && p.admitted == []
    ensures Step(p, e).admitted != [] <==> OfferedEarly(p, e)
  {
    if e.Offer? && p.phase == Active { AdmitsIffVisible(p, e.updates); }
  }

  lemma {:induction false} EarlyIffOffered(own: Sid, es: seq<Event>)
    requires !IsJoinWritten(Run(Start(own, false), es))
    ensures Run(Start(own, false), es).admitted != [] <==> OffersEarly(Start(own, false), es)
  {
    if es != [] {
      var front, e := es[..|es| - 1], es[|es| - 1];
      var before := Run(Start(own, false), front);
      StepKeepsPhase(before, e);
      NotJoinedEarly(own, front);
      EarlyIffOffered(own, front);
      StepKeepsAdmitted(before, e);
      if before.admitted == [] { StepAdmitsEarly(before, e); }
    }
  }

  lemma StepKeepsAdmitted(p: Participant, e: Event)
    ensures p.admitted <= Step(p, e).admitted
  {
    if e.Offer? { AdmitAllKeepsAdmitted(p, e.updates); }
    if e.QueueSent? && p.join.HandingOver? { AdmitAllKeepsAdmitted(p, p.join.queued); }
  }

  /** No update is admitted before the JoinResponse is written. */
  lemma {:induction false} NothingBeforeJoinResponse(own: Sid, es: seq<Event>)
    requires Timely(Start(own, false), es)
    ensures var p := Run(Start(own, false), es); p.admitted != [] ==> IsJoinWritten(p)
  {
    if !IsJoinWritten(Run(Start(own, false), es)) { EarlyIffOffered(own, es); }
  }

  /** Exactly: in any run of a non-migrating participant something is admitted before the
      JoinResponse is written iff a visible update is offered while it is active before that. */
  lemma {:induction false} AdmitsEarlyIffOffersEarly(own: Sid, es: seq<Event>)
    ensures AdmitsEarly(Start(own, false), es) <==> OffersEarly(Start(own, false), es)
  {
    var start := Start(own, false);
    if !IsJoinWritten(Run(start, es)) { EarlyIffOffered(own, es); }
    if es != [] {
      var front, e := es[..|es| - 1], es[|es| - 1];
      AdmitsEarlyIffOffersEarly(own, front);
      StepKeepsPhase(Run(start, front), e);
    }
  }

  /** The premise matters: the gate looks at the state only, so a participant that became active
      before its JoinResponse would be sent updates ahead of it. */
  lemma EarlyActivationOpensTheGate(own: Sid, pi: Info)
    requires !pi.hidden
    ensures var p := Run(Start(own, false), [Activates, Offer([pi])]);
            p.admitted == [pi] && !IsJoinWritten(p)
  {
    var start := Start(own, false);
    assert [Activates, Offer([pi])][..1] == [Activates] && [Activates][..0] == [];
    assert Run(start, [Activates]) == Step(start, Activates);
    assert [pi][..0] == [];
    var active := Step(start, Activates);
    assert AdmitAll(active, [pi]) == Admit(AdmitAll(active, []), pi);
  }

  // ------------------------------------------------------------- versions

  /** No admitted version is above the cached one. */
  ghost predicate Ahead(p: Participant) {
    forall x :: x in p.admitted ==> x.sid in p.cache && x.version <= p.cache[x.sid]
  }

  /** The JoinResponse announces a version below one admitted of that participant. */
  ghost predicate Regresses(p: Participant, e: Event) {
    && e.JoinBegins? && !p.migrating && p.join.NotBegun?
    && exists x :: x in p.admitted && x.sid in Record(map[], e.others) && Record(map[], e.others)[x.sid] < x.version
  }

  ghost predicate AheadThroughout(start: Participant, es: seq<Event>) {
    Ahead(Run(start, es)) && (es == [] || AheadThroughout(start, es[..|es| - 1]))
  }

  ghost predicate NothingRegresses(start: Participant, es: seq<Event>) {
    es == [] || (NothingRegresses(start, es[..|es| - 1]) && !Regresses(Run(start, es[..|es| - 1]), es[|es| - 1]))
  }

  /** Two admitted versions of one participant are in the wrong order. */
  ghost predicate Decreasing(admitted: seq<Info>) {
    exists i, j :: 0 <= i < j < |admitted| && admitted[i].sid == admitted[j].sid && admitted[j].version < admitted[i].version
  }

  lemma {:induction false} AdmitAllKeepsAhead(p: Participant, updates: seq<Info>)
    requires Ahead(p)
    ensures var q := AdmitAll(p, updates);
            Ahead(q) && p.admitted <= q.admitted && (!Decreasing(p.admitted) ==> !Decreasing(q.admitted))
  {
    if updates != [] {
      AdmitAllKeepsAhead(p, updates[..|updates| - 1]);
      var q := AdmitAll(p, updates[..|updates| - 1]);
      assert forall x :: x in Admit(q, updates[|updates| - 1]).admitted ==> x in q.admitted || x == updates[|updates| - 1];
      assert forall i :: 0 <= i < |q.admitted| ==> q.admitted[i] in q.admitted;
    }
  }

  lemma StepAheadIff(p: Participant, e: Event)
    requires Ahead(p)
    ensures Ahead(Step(p, e)) <==> !Regresses(p, e)
    ensures !Decreasing(p.admitted) ==> !Decreasing(Step(p, e).admitted)
  {
    if e.Offer? {
      AdmitAllKeepsAhead(p, e.updates);
    } else if e.QueueSent? {
      if p.join.HandingOver? { AdmitAllKeepsAhead(p, p.join.queued); }
    } else if e.JoinBegins? {
      RecordHolds(p.cache, e.others);
    }
  }

  /** In every run: no cached version is below an admitted one at any point, exactly when no
      JoinResponse announces a version below one already admitted of that participant. */
  lemma {:induction false} AheadIffNothingRegresses(own: Sid, migrating: bool, es: seq<Event>)
    ensures AheadThroughout(Start(own, migrating), es) <==> NothingRegresses(Start(own, migrating), es)
  {
    if es != [] {
      var start, front := Start(own, migrating), es[..|es| - 1];
      AheadIffNothingRegresses(own, migrating, front);
      if NothingRegresses(start, front) { StepAheadIff(Run(start, front), es[|es| - 1]); }
    }
  }

  lemma {:induction false} RunKeepsOrder(own: Sid, migrating: bool, es: seq<Event>)
    requires NothingRegresses(Start(own, migrating), es)
    ensures !Decreasing(Run(Start(own, migrating), es).admitted)
  {
    if es != [] {
      var start, front := Start(own, migrating), es[..|es| - 1];
      RunKeepsOrder(own, migrating, front);
      AheadIffNothingRegresses(own, migrating, front);
      StepAheadIff(Run(start, front), es[|es| - 1]);
    }
  }

  /** Then the versions admitted of one participant never decrease, early offers or not. */
  lemma {:induction false} VersionsNeverDecrease(own: Sid, migrating: bool, es: seq<Event>, i: nat, j: nat)
    requires NothingRegresses(Start(own, migrating), es)
    requires i <= j < |Run(Start(own, migrating), es).admitted|
    ensures var a, b := Run(Start(own, migrating), es).admitted[i], Run(Start(own, migrating), es).admitted[j];
            a.sid == b.sid ==> a.version <= b.version
  {
    RunKeepsOrder(own, migrating, es);
  }

  /** Where nothing is offered early nothing regresses. */
  lemma {:induction false} TimelyNeverRegresses(own: Sid, migrating: bool, es: seq<Event>)
    requires Timely(Start(own, migrating), es)
    ensures NothingRegresses(Start(own, migrating), es)
  {
    if es != [] {
      var front, e := es[..|es| - 1], es[|es| - 1];
      TimelyNeverRegresses(own, migrating, front);
      RunKeepsInv(own, migrating, front);
      if !migrating && e.JoinBegins? && !IsJoinWritten(Run(Start(own, false), front)) { EarlyIffOffered(own, front); }
    }
  }

  /** Once a cached version is below an admitted one, and only then, some next update makes the
      admitted versions decrease. */
  lemma {:induction false} NextMayDecreaseIff(own: Sid, migrating: bool, es: seq<Event>)
    requires var p := Run(Start(own, migrating), es); IsReady(p) && !Decreasing(p.admitted)
    ensures var p := Run(Start(own, migrating), es);
            (exists pi :: Decreasing(Step(p, Offer([pi])).admitted)) <==> !Ahead(p)
  {
    RunKeepsInv(own, migrating, es);
    var p := Run(Start(own, migrating), es);
    if !Ahead(p) {
      var i :| 0 <= i < |p.admitted| && p.cache[p.admitted[i].sid] < p.admitted[i].version;
      var pi := Info(p.admitted[i].sid, p.cache[p.admitted[i].sid], false);
      AdmitOne(p, pi);
      var admitted := Step(p, Offer([pi])).admitted;
      assert admitted[i] == p.admitted[i] && admitted[|p.admitted|] == pi;
      assert Decreasing(admitted);
    } else {
      forall pi ensures !Decreasing(Step(p, Offer([pi])).admitted) { StepAheadIff(p, Offer([pi])); }
    }
  }

  lemma AdmitOne(p: Participant, pi: Info)
    ensures AdmitAll(p, [pi]) == Admit(p, pi)
  {
    assert [pi][..0] == [];
    assert AdmitAll(p, []) == p;
  }

  lemma RunExtends(p: Participant, es: seq<Event>, e: Event)
    ensures Run(p, es + [e]) == Step(Run(p, es), e)
  {
    assert (es + [e])[..|es|] == es;
  }

  /** It happens to a participant that is active early: the JoinResponse announces an older version
      than it was sent, and the one in between follows. */
  lemma AnnouncementLowersVersion(own: Sid, s: Sid)
    ensures Run(Start(own, false), [] + [Activates] + [Offer([Info(s, 5, false)])] + [JoinBegins([Info(s, 3, false)])]
                                   + [Offer([Info(s, 4, false)])]).admitted
            == [Info(s, 5, false), Info(s, 4, false)]
  {
    var start := Start(own, false);
    var e0, e1, e2, e3 := Activates, Offer([Info(s, 5, false)]), JoinBegins([Info(s, 3, false)]), Offer([Info(s, 4, false)]);
    RunExtends(start, [], e0);
    var p1 := Step(start, e0);
    RunExtends(start, [] + [e0], e1);
    AdmitOne(p1, Info(s, 5, false));
    var p2 := Step(p1, e1);
    assert p2.admitted == [Info(s, 5, false)] && p2.phase == Active && p2.join.NotBegun?;
    RunExtends(start, [] + [e0] + [e1], e2);
    var p3 := Step(p2, e2);
    assert [Info(s, 3, false)][..0] == [];
    assert Record(p2.cache, [Info(s, 3, false)]) == Record(p2.cache, [])[s := 3];
    assert p3.cache[s] == 3 && p3.admitted == p2.admitted && p3.phase == Active;
    RunExtends(start, [] + [e0] + [e1] + [e2], e3);
    AdmitOne(p3, Info(s, 4, false));
  }

  lemma {:induction false} AdmitAllKeepsAbove(p: Participant, updates: seq<Info>, n: nat)
    requires n <= |p.admitted| && StaysAbove(p, n)
    ensures n <= |AdmitAll(p, updates).admitted| && StaysAbove(AdmitAll(p, updates), n)
    ensures AdmitAll(p, updates).announced == p.announced
  {
    if updates != [] { AdmitAllKeepsAbove(p, updates[..|updates| - 1], n); }
  }

  /** From the announced versions on, the cache and what is admitted after the first `n` go up. */
  ghost predicate StaysAbove(p: Participant, n: nat) {
    && (forall sid :: sid in p.announced ==> sid in p.cache && p.announced[sid] <= p.cache[sid])
    && (forall j :: n <= j < |p.admitted| && p.admitted[j].sid in p.announced
          ==> p.announced[p.admitted[j].sid] <= p.admitted[j].version)
  }

  lemma SendKeepsAbove(p: Participant, updates: seq<Info>, n: nat)
    requires n <= |p.admitted| && StaysAbove(p, n)
    ensures var q := SendParticipantUpdate(p, updates);
            n <= |q.admitted| && StaysAbove(q, n) && q.announced == p.announced && q.join == p.join
  {
    AdmitAllFrame(p, updates);
    AdmitAllKeepsAbove(p, updates, n);
  }

  lemma StepKeepsAbove(p: Participant, e: Event, n: nat)
    requires !p.join.NotBegun? && n <= |p.admitted| && StaysAbove(p, n)
    ensures var q := Step(p, e); !q.join.NotBegun? && n <= |q.admitted| && StaysAbove(q, n) && q.announced == p.announced
  {
    if e.Offer? {
      SendKeepsAbove(p, e.updates, n);
    } else if e.QueueSent? && p.join.HandingOver? {
      SendKeepsAbove(p, p.join.queued, n);
    } else {
      assert Step(p, e).cache == p.cache && Step(p, e).admitted == p.admitted && Step(p, e).announced == p.announced;
    }
  }

  lemma {:induction false} RunKeepsAbove(p: Participant, es: seq<Event>, n: nat)
    requires !p.join.NotBegun? && n <= |p.admitted| && StaysAbove(p, n)
    ensures var q := Run(p, es); !q.join.NotBegun? && n <= |q.admitted| && StaysAbove(q, n) && q.announced == p.announced
  {
    if es != [] {
      RunKeepsAbove(p, es[..|es| - 1], n);
      StepKeepsAbove(Run(p, es[..|es| - 1]), es[|es| - 1], n);
    }
  }

  /** What is admitted after the JoinResponse announced its versions is never below them. */
  lemma {:induction false} NeverBelowAnnounced(own: Sid, es: seq<Event>, others: seq<Info>, more: seq<Event>, j: nat)
    requires Run(Start(own, false), es).join.NotBegun?
    requires var p := Step(Run(Start(own, false), es), JoinBegins(others));
             |p.admitted| <= j < |Run(p, more).admitted|
    ensures var p := Step(Run(Start(own, false), es), JoinBegins(others));
            var b := Run(p, more).admitted[j];
            p.announced == Record(map[], others) && (b.sid in p.announced ==> p.announced[b.sid] <= b.version)
  {
    RunKeepsInv(own, false, es);
    var before := Run(Start(own, false), es);
    RecordHolds(before.cache, others);
    var p := Step(before, JoinBegins(others));
    RunKeepsAbove(p, more, |p.admitted|);
  }

  // -------------------------------------------------------- nothing is lost

  /** While the participant is connected, every update it was ever offered is admitted, waiting,
      hidden from it or overtaken by one admitted or announced. */
  lemma {:induction false} EveryOfferIsAccounted(own: Sid, migrating: bool, es: seq<Event>, pi: Info)
    requires var p := Run(Start(own, migrating), es); p.phase != Disconnected && pi in p.offered
    ensures var p := Run(Start(own, migrating), es);
            pi in p.admitted || Waiting(p, pi) || (pi.hidden && pi.sid != own) || Overtaken(p, pi)
  {
    RunKeepsInv(own, migrating, es);
  }

  /** The state moves forward only: to Joined when the JoinResponse has been written and the participant is
      still joining, to Active, and from any state to Disconnected. */
  lemma PhaseAfter(p: Participant, e: Event)
    ensures Step(p, e).phase ==
              if e.Disconnects? then Disconnected
              else if e.Activates? && p.phase != Disconnected then Active
              else if e.JoinFinishes? && p.join.Written? && p.phase == Joining then Joined
              else p.phase
  {
    StepKeepsPhase(p, e);
  }

  /** Nothing waits any more once SendJoinResponse is through, or ever when migrating. */
  lemma {:induction false} NothingStaysQueued(own: Sid, migrating: bool, es: seq<Event>, pi: Info)
    requires migrating || Run(Start(own, migrating), es).join.Done?
    ensures !Waiting(Run(Start(own, migrating), es), pi)
  {
    RunKeepsInv(own, migrating, es);
  }

  /** No admitted update is hidden, except the participant's own. */
  lemma {:induction false} AdmitAllShowsNoHidden(p: Participant, updates: seq<Info>)
    requires forall x :: x in p.admitted ==> !HiddenFrom(p.own, x)
    ensures forall x :: x in AdmitAll(p, updates).admitted ==> !HiddenFrom(p.own, x)
    ensures AdmitAll(p, updates).own == p.own
  {
    if updates != [] { AdmitAllShowsNoHidden(p, updates[..|updates| - 1]); }
  }

  lemma {:induction false} NoHiddenIsAdmitted(own: Sid, migrating: bool, es: seq<Event>)
    ensures var p := Run(Start(own, migrating), es); p.own == own && forall x :: x in p.admitted && x.hidden ==> x.sid == own
  {
    if es != [] {
      NoHiddenIsAdmitted(own, migrating, es[..|es| - 1]);
      var p, e := Run(Start(own, migrating), es[..|es| - 1]), es[|es| - 1];
      if e.Offer? { AdmitAllShowsNoHidden(p, e.updates); }
      if e.QueueSent? && p.join.HandingOver? { AdmitAllShowsNoHidden(p, p.join.queued); }
    }
  }

  // --------------------------------------------------------------- object

  class Signalling {
    const own: Sid
    const migrating: bool
    var phase: Phase
    var updateCache: map<Sid, nat>
    var queuedUpdates: seq<Info>
    ghost var join: JoinProgress
    ghost var offered: seq<Info>
    ghost var admitted: seq<Info>
    ghost var announced: map<Sid, nat>

    constructor (own: Sid, migrating: bool)
      ensures State() == Start(own, migrating)
    {
      this.own, this.migrating := own, migrating;
      phase, updateCache, queuedUpdates := Joining, map[], [];
      join, offered, admitted, announced := NotBegun, [], [], map[];
    }

    ghost function State(): Participant
      reads this
    {
      Participant(own, migrating, phase, updateCache, queuedUpdates, join, offered, admitted, announced)
    }

    method UpdatePhase(p: Phase)
      modifies `phase
      ensures State() == UpdateState(old(State()), p)
    {
      if Rank(p) > Rank(phase) {
        phase := p;
      }
    }

    /** SendJoinResponse before the write. */
    method BeginJoin(others: seq<Info>)
      requires !migrating && join.NotBegun?
      modifies `updateCache, `join, `announced
      ensures State() == Step(old(State()), JoinBegins(others))
    {
      for i := 0 to |others|
        invariant State() == old(State()).(cache := Record(old(updateCache), others[..i]))
      {
        assert others[..i + 1][..i] == others[..i];
        updateCache := updateCache[others[i].sid := others[i].version];
      }
      assert others[..|others|] == others;
      join, announced := Announced, Record(map[], others);
    }

    /** SendJoinResponse after the write; the updates returned are to be sent. */
    method FinishJoin(err: bool) returns (queued: seq<Info>)
      requires join.Announced?
      modifies `phase, `queuedUpdates, `join
      ensures State() == if err then Step(old(State()), JoinWritten(false))
                         else Step(Step(old(State()), JoinWritten(true)), JoinFinishes)
      ensures queued == if err then [] else old(queuedUpdates)
    {
      if err {
        join := Failed;
        return [];
      }
      UpdatePhase(Joined);
      queued, queuedUpdates, join := queuedUpdates, [], HandingOver(queuedUpdates);
    }

    /** SendParticipantUpdate; `valid` is what is then written. */
    method SendUpdate(updates: seq<Info>) returns (valid: seq<Info>)
      modifies `updateCache, `queuedUpdates, `admitted
      ensures State() == SendParticipantUpdate(old(State()), updates)
      ensures admitted == old(admitted) + valid
    {
      valid := [];
      if phase == Disconnected {
        return;
      }
      var ready := if migrating then phase != Disconnected else phase == Joined || phase == Active;
      if !ready {
        queuedUpdates := queuedUpdates + updates;
        return;
      }
      for i := 0 to |updates|
        invariant State() == AdmitAll(old(State()), updates[..i])
        invariant admitted == old(admitted) + valid
      {
        assert updates[..i + 1][..i] == updates[..i];
        var pi := updates[i];
        var isValid := true;
        if pi.sid in updateCache && pi.version < updateCache[pi.sid] {
          isValid := false;
        }
        if pi.hidden && pi.sid != own {
          isValid := false;
        }
        if isValid {
          updateCache := updateCache[pi.sid := pi.version];
          valid := valid + [pi];
          admitted := admitted + [pi];
        }
      }
      assert updates[..|updates|] == updates;
    }
  }
}
