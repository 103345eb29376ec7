/**
 Whom the reliable messages of a room reach (pkg/rtc/room.go, pkg/rtc/participant.go), in
 terms of the identities a message lists.
 */
module ReliableDelivery {
  import opened ReliableData

  /** The message lists nobody, and so is for all, or it lists `identity`. */
  predicate Lists(m: Message, identity: Identity) {
    |m.destIdentities| == 0 || exists i :: 0 <= i < |m.destIdentities| && m.destIdentities[i] == identity
  }

  /** In every run: once the joiner can be written to, it has every message of another participant
      that lists nobody or the joiner, at or above the first sequence owed and neither dropped
      nor expired, when its broadcast is over; one that lists only others it never has. */
  lemma {:induction false} ListedAreServed(sid: Sid, identity: Identity, preset: map<Sid, nat>, es: seq<Event>, m: Message)
    ensures var y := Run(Start(sid, identity, preset), es);
            && (Lists(m, identity) && m.sender != sid && m in y.published && m !in y.duplicates && m !in y.expired ==>
                  m.sender in y.start && y.start[m.sender] <= m.number && !(m.sender in y.pending && y.pending[m.sender] == m) ==>
                    y.joiner.canWrite ==> m in y.joiner.wire)
            && (!Lists(m, identity) ==> m !in y.joiner.wire)
  {
    NoGaps(sid, identity, preset, es);
    NothingUnowed(sid, identity, preset, es);
    IdentityStays(Start(sid, identity, preset), es);
    assert m.destIdentities == [] <==> |m.destIdentities| == 0;
  }

  // ---------------------------------------- what a broadcast comes to

  /** `m` of another participant is broadcast while the joiner is in the room, and lists it or nobody. */
  predicate SentTo(y: RoomState, e: Event, m: Message) {
    && e == Broadcast(m.sender) && m.sender in y.pending && y.pending[m.sender] == m
    && y.inRoom && m.sender != y.joiner.sid && Lists(m, y.joiner.identity)
  }

  ghost predicate WasSentTo(start: RoomState, es: seq<Event>, m: Message) {
    es != [] && (WasSentTo(start, es[..|es| - 1], m) || SentTo(Run(start, es[..|es| - 1]), es[|es| - 1], m))
  }

  /** It fixes the sender's first sequence if there is none, and reaches a joiner that can be
      written to; a broadcast outside the room, of the joiner's own or that lists only others
      changes nothing for the joiner. */
  lemma {:induction false} BroadcastHands(sid: Sid, identity: Identity, preset: map<Sid, nat>, es: seq<Event>, m: Message)
    requires var y := Run(Start(sid, identity, preset), es);
             m.sender in y.pending && y.pending[m.sender] == m
    ensures var y := Run(Start(sid, identity, preset), es);
            var z := Step(y, Broadcast(m.sender));
            if y.inRoom && m.sender != sid && Lists(m, identity) then
              && z.start == (if m.sender in y.start then y.start else y.start[m.sender := m.number])
              && (y.joiner.canWrite ==> m in z.joiner.wire)
            else z.start == y.start && z.joiner == y.joiner
  {
    var y := Run(Start(sid, identity, preset), es);
    IdentityStays(Start(sid, identity, preset), es);
    StartInv(sid, identity, preset);
    RunKeepsInv(Start(sid, identity, preset), es);
    assert PendingInv(y, m.sender);
    if m.sender in y.joiner.lastWrittenSeqs && m.number <= y.joiner.lastWrittenSeqs[m.sender] { SkippedIsWritten(y, m.sender); }
  }

  /** A message sent to the joiner is owed to it, unless a first sequence above it was taken over. */
  ghost predicate OwedSince(y: RoomState, m: Message, preset: map<Sid, nat>) {
    && m in y.published && m !in y.duplicates && !InBroadcast(y, m) && m.sender in y.start
    && (m.sender in preset ==> y.start[m.sender] == preset[m.sender])
    && (m.sender !in preset ==> y.start[m.sender] <= m.number)
  }

  ghost predicate PresetStays(y: RoomState, preset: map<Sid, nat>) {
    forall s :: s in preset ==> s in y.start && y.start[s] == preset[s]
  }

  lemma SentIsOwed(y: RoomState, m: Message, preset: map<Sid, nat>)
    requires Inv(y) && DroppedInv(y) && PresetStays(y, preset) && FromFirst(y, preset.Keys)
    requires SentTo(y, Broadcast(m.sender), m)
    ensures OwedSince(Step(y, Broadcast(m.sender)), m, preset)
  {
    assert PendingInv(y, m.sender);
    if m.sender in y.start && m.sender !in preset { assert IsPublished(y, m.sender, y.start[m.sender]); }
  }

  lemma StaysOwed(y: RoomState, e: Event, m: Message, preset: map<Sid, nat>)
    requires Inv(y) && DroppedInv(y) && OwedSince(y, m, preset)
    ensures OwedSince(Step(y, e), m, preset)
  {
    if e.CacheAdd? {
      assert e.m in y.published ==> !Newest(y.published, e.m);
    } else if e.Broadcast? && e.sender in y.pending {
      assert y.pending[e.sender].sender == e.sender;
    } else if e.DropDuplicate? && e.sender in y.pending {
      assert y.pending[e.sender].sender == e.sender;
    }
  }

  lemma StepKeepsPreset(y: RoomState, e: Event, preset: map<Sid, nat>)
    requires PresetStays(y, preset)
    ensures PresetStays(Step(y, e), preset)
  {
  }

  lemma {:induction false} RunKeepsPreset(sid: Sid, identity: Identity, preset: map<Sid, nat>, es: seq<Event>)
    ensures PresetStays(Run(Start(sid, identity, preset), es), preset)
  {
    if es != [] {
      RunKeepsPreset(sid, identity, preset, es[..|es| - 1]);
      StepKeepsPreset(Run(Start(sid, identity, preset), es[..|es| - 1]), es[|es| - 1], preset);
    }
  }

  lemma {:induction false} RunOwes(sid: Sid, identity: Identity, preset: map<Sid, nat>, es: seq<Event>, m: Message)
    requires WasSentTo(Start(sid, identity, preset), es, m)
    ensures OwedSince(Run(Start(sid, identity, preset), es), m, preset)
  {
    var start, front, e := Start(sid, identity, preset), es[..|es| - 1], es[|es| - 1];
    var y := Run(start, front);
    RunOnlyReplays(sid, identity, preset, front, m);
    if WasSentTo(start, front, m) {
      RunOwes(sid, identity, preset, front, m);
      StaysOwed(y, e, m, preset);
    } else {
      StartInv(sid, identity, preset);
      RunKeepsFromFirst(start, front, preset.Keys);
      RunKeepsPreset(sid, identity, preset, front);
      SentIsOwed(y, m, preset);
    }
  }

  /** In every run: a message broadcast while the joiner is in the room, of another participant and
      listing the joiner or nobody, is written to the joiner once it can be written to, unless
      it has expired from the cache by the replay or lies below a sequence taken over. */
  lemma {:induction false} BroadcastReachesJoiner(sid: Sid, identity: Identity, preset: map<Sid, nat>, es: seq<Event>, m: Message)
    requires WasSentTo(Start(sid, identity, preset), es, m)
    requires Run(Start(sid, identity, preset), es).joiner.canWrite
    ensures var y := Run(Start(sid, identity, preset), es);
            m in y.joiner.wire || m in y.expired || (m.sender in preset && m.number < preset[m.sender])
  {
    RunOwes(sid, identity, preset, es, m);
    SenderIsOther(sid, identity, preset, es, m);
    ListedAreServed(sid, identity, preset, es, m);
  }

  lemma {:induction false} SenderIsOther(sid: Sid, identity: Identity, preset: map<Sid, nat>, es: seq<Event>, m: Message)
    requires WasSentTo(Start(sid, identity, preset), es, m)
    ensures m.sender != sid && Lists(m, identity)
  {
    var start, front := Start(sid, identity, preset), es[..|es| - 1];
    IdentityStays(start, front);
    if WasSentTo(start, front, m) { SenderIsOther(sid, identity, preset, front, m); }
  }
}
