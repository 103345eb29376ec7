/**
 Reliable data for a joining participant (pkg/rtc/participant.go, pkg/rtc/room.go), across
 the moment at which its transport comes up.
 */
module ReliableData {

  // The room caches every reliable message before broadcasting it.  A participant that cannot
  // be written to yet only notes the first sequence it was handed per sender, and once its
  // transport is up replays the cache from there before live messages flow.
  //
  // Caching and broadcasting one message are separate steps, so the replay may fall between
  // them.  One sender's messages are processed one after the other.  Messages are addressed
  // by identity.

  datatype Sid = Sid(value: string)
  datatype Identity = Identity(value: string)

  /** types.DataMessageCache, without the payload. */
  datatype Message = Message(sender: Sid, number: nat, destIdentities: seq<Identity>)

  /** reliableDataInfo of the joining participant, with what it handed to its transport. */
  datatype Joiner = Joiner(
    sid: Sid,
    identity: Identity,
    canWrite: bool,
    firstSeqs: map<Sid, nat>,
    lastWrittenSeqs: map<Sid, nat>,
    wire: seq<Message>)

  predicate AddressedTo(m: Message, identity: Identity) {
    m.destIdentities == [] || identity in m.destIdentities
  }

  /** SendDataMessage for a reliable, numbered message. */
  function SendReliable(j: Joiner, m: Message): Joiner {
    if !j.canWrite then
      if m.sender in j.firstSeqs then j else j.(firstSeqs := j.firstSeqs[m.sender := m.number])
    else if m.sender in j.lastWrittenSeqs && m.number <= j.lastWrittenSeqs[m.sender] then
      j
    else
      j.(lastWrittenSeqs := j.lastWrittenSeqs - {m.sender}, wire := j.wire + [m])
  }

  /** Room.GetCachedReliableDataMessage followed by the destination check of the replay. */
  predicate Replayed(j: Joiner, m: Message) {
    m.sender in j.firstSeqs && j.firstSeqs[m.sender] <= m.number && AddressedTo(m, j.identity)
  }

  function ReplayOne(j: Joiner, m: Message): Joiner {
    j.(wire := j.wire + [m],
       lastWrittenSeqs := if m.sender in j.lastWrittenSeqs && m.number <= j.lastWrittenSeqs[m.sender]
                          then j.lastWrittenSeqs else j.lastWrittenSeqs[m.sender := m.number])
  }

  function ReplayFrom(j: Joiner, cache: seq<Message>): (k: Joiner)
    ensures k.firstSeqs == j.firstSeqs && k.identity == j.identity && k.sid == j.sid && k.canWrite == j.canWrite
  {
    if cache == [] then j
    else
      var k := ReplayFrom(j, cache[..|cache| - 1]);
      var m := cache[|cache| - 1];
      if Replayed(j, m) then ReplayOne(k, m) else k
  }

  /** replayJoiningReliableMessages */
  function Replay(j: Joiner, cache: seq<Message>): Joiner {
    ReplayFrom(j, cache).(firstSeqs := map[], canWrite := true)
  }

  // ---------------------------------------------------------------- runs

  /** The room as one joiner sees it.  `pending` is the message each sender has in the
      cache but not yet through its broadcast; `published` are all messages ever
      cached; `start` is the first sequence of each sender owed to the joiner;
      `duplicates` are messages the room dropped as repeated user packets, and `expired`
      those that left the cache before the replay. */
  datatype RoomState = RoomState(
    joiner: Joiner,
    inRoom: bool,
    cache: seq<Message>,
    pending: map<Sid, Message>,
    published: set<Message>,
    start: map<Sid, nat>,
    duplicates: set<Message>,
    expired: seq<Message>)

  datatype Event =
    | CacheAdd(m: Message)
    | Broadcast(sender: Sid)
    | DropDuplicate(sender: Sid)
    | EnterRoom
    | ReplayJoining
    | Prune(k: nat)

  predicate Newest(published: set<Message>, m: Message) {
    forall o :: o in published && o.sender == m.sender ==> o.number < m.number
  }

  /** The broadcast reaches the joiner. */
  predicate Reaches(y: RoomState, m: Message) {
    y.inRoom && m.sender != y.joiner.sid && AddressedTo(m, y.joiner.identity)
  }

  function Step(y: RoomState, e: Event): RoomState {
    match e
    case CacheAdd(m) =>
      // the sender's previous message is done, and its sequences only grow
      if m.number > 0 && m.sender !in y.pending && Newest(y.published, m) then
        y.(cache := y.cache + [m], pending := y.pending[m.sender := m], published := y.published + {m})
      else y
    case Broadcast(s) =>
      if s in y.pending then
        var m := y.pending[s];
        if Reaches(y, m) then
          y.(joiner := SendReliable(y.joiner, m),
             pending := y.pending - {s},
             start := if s in y.start then y.start else y.start[s := m.number])
        else y.(pending := y.pending - {s})
      else y
    case DropDuplicate(s) =>
      if s in y.pending then y.(pending := y.pending - {s}, duplicates := y.duplicates + {y.pending[s]}) else y
    case EnterRoom => y.(inRoom := true)
    case ReplayJoining => if y.inRoom then y.(joiner := Replay(y.joiner, y.cache)) else y
    case Prune(k) =>
      if k <= |y.cache| then
        y.(cache := y.cache[k..],
           expired := if y.joiner.canWrite then y.expired else y.expired + y.cache[..k])
      else y
  }

  /** A joiner outside the room; `preset` holds the sequences a migration continues from. */
  function Start(sid: Sid, identity: Identity, preset: map<Sid, nat>): RoomState {
    RoomState(Joiner(sid, identity, false, preset, map[], []), false, [], map[], {}, preset, {}, [])
  }

  function Run(y: RoomState, es: seq<Event>): RoomState {
    if es == [] then y else Step(Run(y, es[..|es| - 1]), es[|es| - 1])
  }

  // -------------------------------------------------- sequences that grow

  /** Per sender, sequences strictly increase along `s`. */
  ghost predicate Growing(s: seq<Message>) {
    forall i, j :: 0 <= i < j < |s| && s[i].sender == s[j].sender ==> s[i].number < s[j].number
  }

  /** Every message of `s` from `m`'s sender is below `m`. */
  ghost predicate Below(s: seq<Message>, m: Message) {
    forall o :: o in s && o.sender == m.sender ==> o.number < m.number
  }

  lemma GrowingAppend(s: seq<Message>, m: Message)
    requires Growing(s) && Below(s, m)
    ensures Growing(s + [m])
  {
    forall i, j | 0 <= i < j < |s + [m]| && (s + [m])[i].sender == (s + [m])[j].sender
      ensures (s + [m])[i].number < (s + [m])[j].number
    {
      assert (s + [m])[i] == s[i] && s[i] in s;
    }
  }

  lemma GrowingFront(s: seq<Message>)
    requires Growing(s) && s != []
    ensures Growing(s[..|s| - 1]) && Below(s[..|s| - 1], s[|s| - 1])
  {
  }

  /** Sequence `n` of sender `s` has been written. */
  ghost predicate Written(wire: seq<Message>, s: Sid, n: nat) {
    exists o :: o in wire && o.sender == s && o.number == n
  }

  // ------------------------------------------------------------ invariant

  ghost predicate Remembers(j: Joiner) {
    forall s :: s in j.lastWrittenSeqs ==> Written(j.wire, s, j.lastWrittenSeqs[s])
  }

  ghost predicate JoinerInv(j: Joiner) {
    && Growing(j.wire)
    && Remembers(j)
    && (!j.canWrite ==> j.wire == [] && j.lastWrittenSeqs == map[])
    && (j.canWrite ==> j.firstSeqs == map[])
  }

  ghost predicate PublishedInv(y: RoomState) {
    && (forall a, b :: a in y.published && b in y.published && a.sender == b.sender && a.number == b.number ==> a == b)
    && Growing(y.cache)
    && (forall m :: m in y.cache ==> m in y.published)
    && (forall m :: m in y.joiner.wire ==> m in y.published)
  }

  /** A message still to be broadcast is its sender's newest, and if the replay wrote it
      already the joiner remembers that. */
  ghost predicate PendingInv(y: RoomState, s: Sid) {
    s in y.pending ==>
      var m := y.pending[s];
      && m.sender == s && m in y.published
      && (forall o :: o in y.published && o.sender == s ==> o.number <= m.number)
      && (m in y.joiner.wire ==> s in y.joiner.lastWrittenSeqs && y.joiner.lastWrittenSeqs[s] == m.number)
  }

  ghost predicate Inv(y: RoomState) {
    JoinerInv(y.joiner) && PublishedInv(y) && forall s :: PendingInv(y, s)
  }

  /** The live message goes out unless the joiner remembers writing it. */
  lemma SendKeepsJoinerInv(j: Joiner, m: Message)
    requires JoinerInv(j) && (m !in j.wire ==> Below(j.wire, m))
    requires m in j.wire ==> m.sender in j.lastWrittenSeqs && j.lastWrittenSeqs[m.sender] == m.number
    ensures JoinerInv(SendReliable(j, m))
  {
    var k := SendReliable(j, m);
    if k.wire != j.wire {
      GrowingAppend(j.wire, m);
      forall t | t in k.lastWrittenSeqs ensures Written(k.wire, t, k.lastWrittenSeqs[t]) {
        var o :| o in j.wire && o.sender == t && o.number == j.lastWrittenSeqs[t];
        assert o in k.wire;
      }
    }
  }

  lemma BroadcastKeepsPublished(y: RoomState, s: Sid)
    requires PublishedInv(y) && PendingInv(y, s) && s in y.pending
    ensures PublishedInv(Step(y, Broadcast(s)))
  {
    var m, z := y.pending[s], Step(y, Broadcast(s));
    assert z.published == y.published && z.cache == y.cache;
    assert forall o :: o in z.joiner.wire ==> o in y.joiner.wire || o == m;
  }

  lemma BroadcastKeepsPending(y: RoomState, s: Sid, t: Sid)
    requires PendingInv(y, s) && PendingInv(y, t) && s in y.pending
    ensures PendingInv(Step(y, Broadcast(s)), t)
  {
    var m, z := y.pending[s], Step(y, Broadcast(s));
    if t in z.pending {
      assert t != s && z.pending[t] == y.pending[t];
      assert z.joiner.wire == y.joiner.wire || z.joiner.wire == y.joiner.wire + [m];
      assert y.pending[t] in z.joiner.wire ==> y.pending[t] in y.joiner.wire;
    }
  }

  lemma BroadcastKeepsInv(y: RoomState, s: Sid)
    requires Inv(y) && s in y.pending
    ensures Inv(Step(y, Broadcast(s)))
  {
    var m, z := y.pending[s], Step(y, Broadcast(s));
    assert PendingInv(y, s);
    SendKeepsJoinerInv(y.joiner, m);
    BroadcastKeepsPublished(y, s);
    forall t ensures PendingInv(z, t) {
      assert PendingInv(y, t);
      BroadcastKeepsPending(y, s, t);
    }
  }

  /** The cached messages owed to the joiner, in cache order. */
  function ToReplay(j: Joiner, cache: seq<Message>): seq<Message> {
    if cache == [] then []
    else
      var rest, m := ToReplay(j, cache[..|cache| - 1]), cache[|cache| - 1];
      if Replayed(j, m) then rest + [m] else rest
  }

  /** The replay writes exactly these, in this order, after what was written before. */
  lemma {:induction false} ReplayWritesInOrder(j: Joiner, cache: seq<Message>)
    ensures ReplayFrom(j, cache).wire == j.wire + ToReplay(j, cache)
    ensures forall m :: m in ToReplay(j, cache) <==> m in cache && Replayed(j, m)
  {
    if cache != [] {
      var front, m := cache[..|cache| - 1], cache[|cache| - 1];
      ReplayWritesInOrder(j, front);
      assert cache == front + [m];
      assert j.wire + ToReplay(j, front) + [m] == j.wire + (ToReplay(j, front) + [m]);
    }
  }

  lemma ReplayWrites(j: Joiner, cache: seq<Message>)
    requires j.wire == []
    ensures forall m :: m in ReplayFrom(j, cache).wire <==> m in cache && Replayed(j, m)
  {
    ReplayWritesInOrder(j, cache);
    assert [] + ToReplay(j, cache) == ToReplay(j, cache);
  }

  /** So each sender's sequences grow ... */
  lemma {:induction false} ReplayGrows(j: Joiner, cache: seq<Message>)
    requires j.wire == [] && Growing(cache)
    ensures Growing(ReplayFrom(j, cache).wire)
  {
    if cache != [] {
      var front, m := cache[..|cache| - 1], cache[|cache| - 1];
      GrowingFront(cache);
      ReplayGrows(j, front);
      ReplayWrites(j, front);
      if Replayed(j, m) { GrowingAppend(ReplayFrom(j, front).wire, m); }
    }
  }

  /** ... and remembers each sender's highest. */
  lemma {:induction false} ReplayRemembers(j: Joiner, cache: seq<Message>)
    requires j.wire == [] && j.lastWrittenSeqs == map[]
    ensures var k := ReplayFrom(j, cache);
            && Remembers(k)
            && (forall m :: m in k.wire ==> m.sender in k.lastWrittenSeqs && m.number <= k.lastWrittenSeqs[m.sender])
  {
    if cache != [] {
      var front, m := cache[..|cache| - 1], cache[|cache| - 1];
      ReplayRemembers(j, front);
      var k := ReplayFrom(j, front);
      if Replayed(j, m) {
        var l := ReplayOne(k, m);
        forall s | s in l.lastWrittenSeqs ensures Written(l.wire, s, l.lastWrittenSeqs[s]) {
          if s in k.lastWrittenSeqs && l.lastWrittenSeqs[s] == k.lastWrittenSeqs[s] {
            var o :| o in k.wire && o.sender == s && o.number == k.lastWrittenSeqs[s];
            assert o in l.wire;
          } else {
            assert m in l.wire && m.number == l.lastWrittenSeqs[s];
          }
        }
      }
    }
  }

  /** A second replay finds no first sequences and writes nothing. */
  lemma {:induction false} ReplayAgain(j: Joiner, cache: seq<Message>)
    requires j.firstSeqs == map[]
    ensures ReplayFrom(j, cache) == j
  {
    if cache != [] { ReplayAgain(j, cache[..|cache| - 1]); }
  }

  lemma ReplayKeepsInv(y: RoomState)
    requires Inv(y) && y.inRoom
    ensures Inv(Step(y, ReplayJoining))
  {
    var z := Step(y, ReplayJoining);
    if y.joiner.canWrite {
      ReplayAgain(y.joiner, y.cache);
      assert z.cache == y.cache[0..];
      OnlyPendingShrinks(y, z);
    } else {
      ReplayWrites(y.joiner, y.cache);
      ReplayGrows(y.joiner, y.cache);
      ReplayRemembers(y.joiner, y.cache);
      forall s ensures PendingInv(z, s) {
        assert PendingInv(y, s);
        if s in y.pending && y.pending[s] in z.joiner.wire {
          var o :| o in z.joiner.wire && o.sender == s && o.number == z.joiner.lastWrittenSeqs[s];
        }
      }
    }
  }

  lemma OnlyPendingShrinks(y: RoomState, z: RoomState)
    requires Inv(y) && z.joiner == y.joiner && z.published == y.published
    requires forall s :: s in z.pending ==> s in y.pending && z.pending[s] == y.pending[s]
    requires exists k :: 0 <= k <= |y.cache| && z.cache == y.cache[k..]
    ensures Inv(z)
  {
    forall s ensures PendingInv(z, s) { assert PendingInv(y, s); }
  }

  lemma CacheAddKeepsInv(y: RoomState, m: Message)
    requires Inv(y) && m.number > 0 && m.sender !in y.pending && Newest(y.published, m)
    ensures Inv(Step(y, CacheAdd(m)))
  {
    var z := Step(y, CacheAdd(m));
    assert z.joiner == y.joiner;
    GrowingAppend(y.cache, m);
    assert PublishedInv(z);
    forall s ensures PendingInv(z, s) { assert PendingInv(y, s); }
  }

  lemma StepKeepsInv(y: RoomState, e: Event)
    requires Inv(y)
    ensures Inv(Step(y, e))
  {
    var z := Step(y, e);
    if e.CacheAdd? && e.m.number > 0 && e.m.sender !in y.pending && Newest(y.published, e.m) {
      CacheAddKeepsInv(y, e.m);
    } else if e.Broadcast? && e.sender in y.pending {
      BroadcastKeepsInv(y, e.sender);
    } else if e.ReplayJoining? && y.inRoom {
      ReplayKeepsInv(y);
    } else {
      assert y.cache == y.cache[0..];
      OnlyPendingShrinks(y, z);
    }
  }

  lemma {:induction false} RunKeepsInv(y: RoomState, es: seq<Event>)
    requires Inv(y)
    ensures Inv(Run(y, es))
  {
    if es != [] {
      RunKeepsInv(y, es[..|es| - 1]);
      StepKeepsInv(Run(y, es[..|es| - 1]), es[|es| - 1]);
    }
  }

  lemma StartInv(sid: Sid, identity: Identity, preset: map<Sid, nat>)
    ensures Inv(Start(sid, identity, preset))
  {
    var y := Start(sid, identity, preset);
    forall s ensures PendingInv(y, s) {}
  }

  /** Whatever interleaving of caching, broadcast, replay and cache pruning: each sender's
      messages reach the joiner's transport in strictly increasing sequence, so none twice. */
  lemma {:induction false} NoDuplicates(sid: Sid, identity: Identity, preset: map<Sid, nat>, es: seq<Event>)
    ensures var y := Run(Start(sid, identity, preset), es);
            Growing(y.joiner.wire) && forall m :: m in y.joiner.wire ==> m in y.published
  {
    StartInv(sid, identity, preset);
    RunKeepsInv(Start(sid, identity, preset), es);
  }

  // ---------------------------------------------------------- completeness

  /** Owed to the joiner: addressed to it, from another participant, not a repeated user
      packet, and at or after the first sequence it was handed or told to continue from. */
  ghost predicate Owed(y: RoomState, m: Message) {
    && m in y.published && m !in y.duplicates
    && m.sender != y.joiner.sid && AddressedTo(m, y.joiner.identity)
    && m.sender in y.start && y.start[m.sender] <= m.number
  }

  ghost predicate InBroadcast(y: RoomState, m: Message) {
    m.sender in y.pending && y.pending[m.sender] == m
  }

  /** Everything written was addressed to the joiner by a sender it was owed messages of. */
  ghost predicate OnlyAddressed(y: RoomState) {
    && (!y.joiner.canWrite ==> y.joiner.firstSeqs == y.start)
    && (forall m :: m in y.joiner.wire ==> AddressedTo(m, y.joiner.identity) && m.sender in y.start)
  }

  ghost predicate Complete(y: RoomState) {
    && OnlyAddressed(y)
    && (!y.joiner.canWrite ==> forall m :: m in y.published ==> m in y.cache || m in y.expired)
    && (y.joiner.canWrite ==> y.inRoom)
    && (y.joiner.canWrite ==> forall m :: Owed(y, m) ==> Served(y, m))
  }

  /** An owed message is written, still to be broadcast, or expired before the replay. */
  ghost predicate Served(y: RoomState, m: Message) {
    m in y.joiner.wire || InBroadcast(y, m) || m in y.expired
  }

  ghost predicate IsPublished(y: RoomState, s: Sid, number: nat) {
    exists o :: o in y.published && o.sender == s && o.number == number
  }

  /** Nothing written comes before its sender's first sequence, unless that was taken over. */
  ghost predicate FromFirst(y: RoomState, preset: set<Sid>) {
    && (forall s :: s in y.start && s !in preset ==> IsPublished(y, s, y.start[s]))
    && (forall m :: m in y.joiner.wire && m.sender !in preset ==> m.sender in y.start && y.start[m.sender] <= m.number)
  }

  /** A message whose broadcast finds it already written was written by the replay. */
  lemma SkippedIsWritten(y: RoomState, s: Sid)
    requires Inv(y) && s in y.pending
    requires s in y.joiner.lastWrittenSeqs && y.pending[s].number <= y.joiner.lastWrittenSeqs[s]
    ensures y.pending[s] in y.joiner.wire
  {
    assert PendingInv(y, s);
    var o :| o in y.joiner.wire && o.sender == s && o.number == y.joiner.lastWrittenSeqs[s];
    assert o in y.published && o.number == y.pending[s].number;
  }

  /** Before a sender's first message is handed over nothing else of that sender is owed. */
  lemma OnlyNewestOwed(y: RoomState, s: Sid, o: Message)
    requires Inv(y) && s in y.pending && o in y.published && o.sender == s && y.pending[s].number <= o.number
    ensures o == y.pending[s]
  {
    assert PendingInv(y, s);
  }

  lemma BroadcastKeepsComplete(y: RoomState, s: Sid)
    requires Inv(y) && Complete(y) && s in y.pending
    ensures Complete(Step(y, Broadcast(s)))
  {
    var z, m := Step(y, Broadcast(s)), y.pending[s];
    assert PendingInv(y, s);
    if y.joiner.canWrite {
      forall o | Owed(z, o) ensures Served(z, o) {
        if o == m {
          if s in y.joiner.lastWrittenSeqs && m.number <= y.joiner.lastWrittenSeqs[s] { SkippedIsWritten(y, s); }
        } else if o.sender == s && s !in y.start {
          OnlyNewestOwed(y, s, o);
        } else {
          assert Owed(y, o);
        }
      }
    }
  }

  lemma ReplayKeepsComplete(y: RoomState)
    requires Inv(y) && Complete(y) && y.inRoom
    ensures Complete(Step(y, ReplayJoining))
  {
    var z := Step(y, ReplayJoining);
    if y.joiner.canWrite {
      ReplayAgain(y.joiner, y.cache);
      assert z.joiner == y.joiner;
      assert z == y;
    } else {
      ReplayWrites(y.joiner, y.cache);
      forall m | Owed(z, m) ensures Served(z, m) { assert Owed(y, m); }
    }
  }

  lemma CacheAddKeepsComplete(y: RoomState, m: Message)
    requires Inv(y) && Complete(y) && m.sender !in y.pending
    requires Step(y, CacheAdd(m)).published == y.published + {m}
    ensures Complete(Step(y, CacheAdd(m)))
  {
    var z := Step(y, CacheAdd(m));
    if y.joiner.canWrite {
      forall o | Owed(z, o) ensures Served(z, o) {
        if o != m {
          assert o in y.published;
          assert Owed(y, o);
          if InBroadcast(y, o) { assert o.sender != m.sender; }
        }
      }
    }
  }

  lemma PruneKeepsComplete(y: RoomState, k: nat)
    requires Complete(y) && k <= |y.cache|
    ensures Complete(Step(y, Prune(k)))
  {
    var z := Step(y, Prune(k));
    assert y.cache == y.cache[..k] + y.cache[k..];
    forall o | Owed(z, o) ensures Owed(y, o) && (Served(y, o) ==> Served(z, o)) {}
  }

  lemma StepKeepsComplete(y: RoomState, e: Event)
    requires Inv(y) && Complete(y)
    ensures Complete(Step(y, e))
  {
    var z := Step(y, e);
    if e.Broadcast? && e.sender in y.pending {
      BroadcastKeepsComplete(y, e.sender);
    } else if e.ReplayJoining? && y.inRoom {
      ReplayKeepsComplete(y);
    } else if e.CacheAdd? && z != y {
      CacheAddKeepsComplete(y, e.m);
    } else if e.Prune? && e.k <= |y.cache| {
      PruneKeepsComplete(y, e.k);
    } else {
      forall o | Owed(z, o) ensures Owed(y, o) && (Served(y, o) ==> Served(z, o)) {}
    }
  }

  ghost predicate NeverPrunes(es: seq<Event>) {
    forall i :: 0 <= i < |es| ==> !es[i].Prune?
  }

  lemma {:induction false} NothingExpires(y: RoomState, es: seq<Event>)
    requires NeverPrunes(es)
    ensures Run(y, es).expired == y.expired
  {
    if es != [] { NothingExpires(y, es[..|es| - 1]); }
  }

  lemma {:induction false} RunKeepsComplete(y: RoomState, es: seq<Event>)
    requires Inv(y) && Complete(y)
    ensures Complete(Run(y, es))
  {
    if es != [] {
      RunKeepsComplete(y, es[..|es| - 1]);
      RunKeepsInv(y, es[..|es| - 1]);
      StepKeepsComplete(Run(y, es[..|es| - 1]), es[|es| - 1]);
    }
  }

  /** A joiner that can be written to has received every message owed to it, except those whose
      broadcast has not happened yet and those that expired from the cache before the replay;
      without pruning there are none of these. */
  lemma {:induction false} NoGaps(sid: Sid, identity: Identity, preset: map<Sid, nat>, es: seq<Event>)
    ensures var y := Run(Start(sid, identity, preset), es);
            && (y.joiner.canWrite ==>
                  forall m :: Owed(y, m) && !InBroadcast(y, m) && m !in y.expired ==> m in y.joiner.wire)
            && (NeverPrunes(es) ==> y.expired == [])
  {
    StartInv(sid, identity, preset);
    RunKeepsComplete(Start(sid, identity, preset), es);
    if NeverPrunes(es) { NothingExpires(Start(sid, identity, preset), es); }
  }

  lemma BroadcastKeepsAddressed(y: RoomState, s: Sid)
    requires PendingInv(y, s) && OnlyAddressed(y) && s in y.pending
    ensures OnlyAddressed(Step(y, Broadcast(s)))
  {
    var z, m := Step(y, Broadcast(s)), y.pending[s];
    assert forall o :: o in z.joiner.wire ==> o in y.joiner.wire || o == m;
  }

  lemma ReplayKeepsFromFirst(y: RoomState, preset: set<Sid>)
    requires Inv(y) && OnlyAddressed(y) && FromFirst(y, preset) && y.inRoom
    ensures OnlyAddressed(Step(y, ReplayJoining)) && FromFirst(Step(y, ReplayJoining), preset)
  {
    if y.joiner.canWrite { ReplayAgain(y.joiner, y.cache); } else { ReplayWrites(y.joiner, y.cache); }
  }

  lemma StepKeepsFromFirst(y: RoomState, e: Event, preset: set<Sid>)
    requires Inv(y) && OnlyAddressed(y) && FromFirst(y, preset)
    ensures OnlyAddressed(Step(y, e)) && FromFirst(Step(y, e), preset)
  {
    if e.Broadcast? && e.sender in y.pending {
      BroadcastKeepsAddressed(y, e.sender);
    } else if e.ReplayJoining? && y.inRoom {
      ReplayKeepsFromFirst(y, preset);
    } else {
      var z := Step(y, e);
      assert z.joiner == y.joiner && z.start == y.start && y.published <= z.published;
      forall s | s in z.start && s !in preset ensures IsPublished(z, s, z.start[s]) { assert IsPublished(y, s, y.start[s]); }
    }
  }

  lemma {:induction false} RunKeepsFromFirst(y: RoomState, es: seq<Event>, preset: set<Sid>)
    requires Inv(y) && OnlyAddressed(y) && FromFirst(y, preset)
    ensures OnlyAddressed(Run(y, es)) && FromFirst(Run(y, es), preset)
  {
    if es != [] {
      RunKeepsFromFirst(y, es[..|es| - 1], preset);
      RunKeepsInv(y, es[..|es| - 1]);
      StepKeepsFromFirst(Run(y, es[..|es| - 1]), es[|es| - 1], preset);
    }
  }

  /** A joiner is written only messages addressed to it, and from the first one of each sender it
      was handed, except of a sender whose first sequence was taken over from an earlier node. */
  lemma {:induction false} NothingUnowed(sid: Sid, identity: Identity, preset: map<Sid, nat>, es: seq<Event>)
    ensures var y := Run(Start(sid, identity, preset), es);
            forall m :: m in y.joiner.wire ==>
              && AddressedTo(m, identity) && m.sender in y.start
              && (m.sender in preset || y.start[m.sender] <= m.number)
  {
    StartInv(sid, identity, preset);
    RunKeepsFromFirst(Start(sid, identity, preset), es, preset.Keys);
    IdentityStays(Start(sid, identity, preset), es);
  }

  ghost predicate IsBelow(y: RoomState, m: Message) {
    m.sender in y.start && m.number < y.start[m.sender]
  }

  /** A message below its sender's first sequence has been written. */
  ghost predicate AnyBelow(y: RoomState) {
    exists m :: m in y.joiner.wire && IsBelow(y, m)
  }

  /** After the replay, a message below its sender's first sequence is broadcast to the joiner. */
  ghost predicate BroadcastsBelow(y: RoomState, e: Event) {
    && e.Broadcast? && e.sender in y.pending && y.joiner.canWrite
    && Reaches(y, y.pending[e.sender]) && IsBelow(y, y.pending[e.sender])
  }

  ghost predicate SomeBroadcastBelow(start: RoomState, es: seq<Event>) {
    es != [] && (SomeBroadcastBelow(start, es[..|es| - 1]) || BroadcastsBelow(Run(start, es[..|es| - 1]), es[|es| - 1]))
  }

  lemma BroadcastWritesBelow(y: RoomState, s: Sid)
    requires Inv(y) && OnlyAddressed(y) && s in y.pending
    ensures AnyBelow(Step(y, Broadcast(s))) <==> AnyBelow(y) || BroadcastsBelow(y, Broadcast(s))
  {
    var z, m := Step(y, Broadcast(s)), y.pending[s];
    assert PendingInv(y, s);
    assert forall o :: o in y.joiner.wire ==> o in z.joiner.wire && (IsBelow(y, o) <==> IsBelow(z, o));
    assert forall o :: o in z.joiner.wire ==> o in y.joiner.wire || o == m;
    if BroadcastsBelow(y, Broadcast(s)) {
      if s in y.joiner.lastWrittenSeqs && m.number <= y.joiner.lastWrittenSeqs[s] { SkippedIsWritten(y, s); }
      assert m in z.joiner.wire && IsBelow(z, m);
    }
  }

  lemma StepWritesBelow(y: RoomState, e: Event)
    requires Inv(y) && OnlyAddressed(y)
    ensures AnyBelow(Step(y, e)) <==> AnyBelow(y) || BroadcastsBelow(y, e)
  {
    if e.Broadcast? && e.sender in y.pending {
      BroadcastWritesBelow(y, e.sender);
    } else if e.ReplayJoining? && y.inRoom {
      if y.joiner.canWrite { ReplayAgain(y.joiner, y.cache); } else { ReplayWrites(y.joiner, y.cache); }
    } else {
      assert Step(y, e).joiner == y.joiner && Step(y, e).start == y.start;
    }
  }

  lemma StepKeepsAddressed(y: RoomState, e: Event)
    requires Inv(y) && OnlyAddressed(y)
    ensures OnlyAddressed(Step(y, e))
  {
    if e.Broadcast? && e.sender in y.pending {
      BroadcastKeepsAddressed(y, e.sender);
    } else if e.ReplayJoining? && y.inRoom {
      if y.joiner.canWrite { ReplayAgain(y.joiner, y.cache); } else { ReplayWrites(y.joiner, y.cache); }
    }
  }

  lemma {:induction false} RunWritesBelow(sid: Sid, identity: Identity, preset: map<Sid, nat>, es: seq<Event>)
    ensures var y := Run(Start(sid, identity, preset), es);
            Inv(y) && OnlyAddressed(y) && (AnyBelow(y) <==> SomeBroadcastBelow(Start(sid, identity, preset), es))
  {
    if es == [] {
      StartInv(sid, identity, preset);
    } else {
      var front, e := es[..|es| - 1], es[|es| - 1];
      RunWritesBelow(sid, identity, preset, front);
      var y := Run(Start(sid, identity, preset), front);
      StepKeepsInv(y, e);
      StepKeepsAddressed(y, e);
      StepWritesBelow(y, e);
    }
  }

  /** Exactly: with any sequences taken over, a message below its sender's first sequence is
      written iff one is broadcast to the joiner after the replay. */
  lemma {:induction false} BelowFirstIffBroadcastBelow(sid: Sid, identity: Identity, preset: map<Sid, nat>, es: seq<Event>)
    ensures AnyBelow(Run(Start(sid, identity, preset), es)) <==> SomeBroadcastBelow(Start(sid, identity, preset), es)
  {
    RunWritesBelow(sid, identity, preset, es);
  }

  /** The exception is real: the replay keeps to a sequence taken over, but a message broadcast
      after it is written whatever its number. */
  lemma LiveBelowPreset(sid: Sid, identity: Identity, s: Sid, m: Message)
    requires m.sender == s && s != sid && m.number == 1 && AddressedTo(m, identity)
    ensures var y := Run(Start(sid, identity, map[s := 2]), [EnterRoom, ReplayJoining, CacheAdd(m), Broadcast(s)]);
            y.joiner.wire == [m] && y.start == map[s := 2]
  {
    var e0, e1, e2, e3 := EnterRoom, ReplayJoining, CacheAdd(m), Broadcast(s);
    assert [e0][..0] == [] && [e0, e1][..1] == [e0] && [e0, e1, e2][..2] == [e0, e1] && [e0, e1, e2, e3][..3] == [e0, e1, e2];
    var start := Start(sid, identity, map[s := 2]);
    assert Run(start, [e0]) == start.(inRoom := true);
    var y1 := Run(start, [e0, e1]);
    assert y1 == Step(start.(inRoom := true), e1) && y1.joiner == Joiner(sid, identity, true, map[], map[], []);
    var y2 := Run(start, [e0, e1, e2]);
    assert y2 == Step(y1, e2) && s in y2.pending && y2.pending[s] == m && y2.joiner == y1.joiner;
    assert Run(start, [e0, e1, e2, e3]) == Step(y2, e3);
  }

  lemma {:induction false} IdentityStays(y: RoomState, es: seq<Event>)
    ensures Run(y, es).joiner.identity == y.joiner.identity && Run(y, es).joiner.sid == y.joiner.sid
  {
    if es != [] { IdentityStays(y, es[..|es| - 1]); }
  }

  /** The first sequence owed is the first one handed over: a broadcast that reaches the
      joiner fixes it, and no later step moves it. */
  lemma {:induction false} FirstHandedIsOwed(sid: Sid, identity: Identity, preset: map<Sid, nat>, es: seq<Event>, s: Sid, more: seq<Event>)
    requires var y := Run(Start(sid, identity, preset), es); s in y.pending && Reaches(y, y.pending[s])
    ensures var y := Run(Start(sid, identity, preset), es);
            var z := Run(Step(y, Broadcast(s)), more);
            s in z.start && z.start[s] == (if s in y.start then y.start[s] else y.pending[s].number)
  {
    if more != [] { FirstHandedIsOwed(sid, identity, preset, es, s, more[..|more| - 1]); }
  }

  // --------------------------------------------- repeats the room dropped

  /** The replay that brings the joiner up takes `m` from the cache. */
  predicate ReplaysAt(y: RoomState, e: Event, m: Message) {
    e.ReplayJoining? && y.inRoom && !y.joiner.canWrite && m in y.cache && Replayed(y.joiner, m)
  }

  ghost predicate WasReplayed(start: RoomState, es: seq<Event>, m: Message) {
    es != [] && (WasReplayed(start, es[..|es| - 1], m) || ReplaysAt(Run(start, es[..|es| - 1]), es[|es| - 1], m))
  }

  /** A message is still to be broadcast, or dropped, or neither; dropped ones were published. */
  ghost predicate DroppedInv(y: RoomState) {
    && (forall m :: m in y.duplicates ==> m in y.published)
    && (forall s :: s in y.pending ==> y.pending[s].sender == s && y.pending[s] !in y.duplicates)
  }

  /** Nothing but the replay has written `m`, if it was dropped or may still be. */
  ghost predicate OnlyReplayed(y: RoomState, m: Message, replayed: bool) {
    && (replayed ==> m in y.joiner.wire)
    && (m in y.joiner.wire && (m in y.duplicates || InBroadcast(y, m)) ==> replayed)
  }

  lemma StepKeepsDropped(y: RoomState, e: Event)
    requires Inv(y) && DroppedInv(y)
    ensures DroppedInv(Step(y, e))
  {
    if e.CacheAdd? {
      assert e.m in y.published ==> !Newest(y.published, e.m);
    } else if e.DropDuplicate? {
      assert PendingInv(y, e.sender);
    }
  }

  lemma BroadcastOnlyReplays(y: RoomState, s: Sid, m: Message, replayed: bool)
    requires DroppedInv(y) && OnlyReplayed(y, m, replayed) && s in y.pending
    ensures OnlyReplayed(Step(y, Broadcast(s)), m, replayed)
  {
    var z := Step(y, Broadcast(s));
    assert y.pending[s].sender == s && y.pending[s] !in y.duplicates && z.duplicates == y.duplicates;
    assert m in z.joiner.wire ==> m in y.joiner.wire || m == y.pending[s];
    assert InBroadcast(z, m) ==> InBroadcast(y, m) && m != y.pending[s];
  }

  lemma StepOnlyReplays(y: RoomState, e: Event, m: Message, replayed: bool)
    requires Inv(y) && DroppedInv(y) && OnlyReplayed(y, m, replayed)
    ensures OnlyReplayed(Step(y, e), m, replayed || ReplaysAt(y, e, m))
  {
    if e.Broadcast? && e.sender in y.pending {
      BroadcastOnlyReplays(y, e.sender, m, replayed);
    } else if e.ReplayJoining? && y.inRoom {
      if y.joiner.canWrite { ReplayAgain(y.joiner, y.cache); } else { ReplayWrites(y.joiner, y.cache); }
    } else if e.CacheAdd? {
      assert e.m in y.published ==> !Newest(y.published, e.m);
    }
  }

  lemma {:induction false} RunOnlyReplays(sid: Sid, identity: Identity, preset: map<Sid, nat>, es: seq<Event>, m: Message)
    ensures var start, y := Start(sid, identity, preset), Run(Start(sid, identity, preset), es);
            Inv(y) && DroppedInv(y) && OnlyReplayed(y, m, WasReplayed(start, es, m))
  {
    if es == [] {
      StartInv(sid, identity, preset);
    } else {
      var start, front, e := Start(sid, identity, preset), es[..|es| - 1], es[|es| - 1];
      RunOnlyReplays(sid, identity, preset, front, m);
      StepKeepsInv(Run(start, front), e);
      StepKeepsDropped(Run(start, front), e);
      StepOnlyReplays(Run(start, front), e, m, WasReplayed(start, front, m));
    }
  }

  /** A message that the room dropped as a repeat reaches the joiner exactly if the replay took it
      from the cache, which it had entered before the check. */
  lemma {:induction false} DroppedIsWrittenIffReplayed(sid: Sid, identity: Identity, preset: map<Sid, nat>, es: seq<Event>, m: Message)
    requires m in Run(Start(sid, identity, preset), es).duplicates
    ensures m in Run(Start(sid, identity, preset), es).joiner.wire <==> WasReplayed(Start(sid, identity, preset), es, m)
  {
    RunOnlyReplays(sid, identity, preset, es, m);
  }

  lemma RunExtends(y: RoomState, es: seq<Event>, e: Event)
    ensures Run(y, es + [e]) == Step(Run(y, es), e)
  {
    assert (es + [e])[..|es|] == es;
  }

  /** The first message of a sender is broadcast, the second is a repeat. */
  function Repeating(m1: Message, m2: Message): seq<Event> {
    [] + [EnterRoom] + [CacheAdd(m1)] + [Broadcast(m1.sender)] + [CacheAdd(m2)] + [DropDuplicate(m1.sender)]
  }

  lemma AfterRepeating(sid: Sid, identity: Identity, m1: Message, m2: Message)
    requires m1.sender == m2.sender != sid && 0 < m1.number < m2.number && AddressedTo(m1, identity)
    ensures var y := Run(Start(sid, identity, map[]), Repeating(m1, m2));
            && y.joiner == Joiner(sid, identity, false, map[m1.sender := m1.number], map[], [])
            && y.inRoom && y.cache == [m1, m2] && m2 in y.duplicates
  {
    var start, s := Start(sid, identity, map[]), m1.sender;
    RunExtends(start, [], EnterRoom);
    RunExtends(start, [] + [EnterRoom], CacheAdd(m1));
    var y1 := Step(start.(inRoom := true), CacheAdd(m1));
    assert y1 == start.(inRoom := true, cache := [m1], pending := map[s := m1], published := {m1});
    RunExtends(start, [] + [EnterRoom] + [CacheAdd(m1)], Broadcast(s));
    var y2 := Step(y1, Broadcast(s));
    assert y2 == y1.(pending := map[], start := map[s := m1.number], joiner := y1.joiner.(firstSeqs := map[s := m1.number]));
    RunExtends(start, [] + [EnterRoom] + [CacheAdd(m1)] + [Broadcast(s)], CacheAdd(m2));
    var y3 := Step(y2, CacheAdd(m2));
    assert y3 == y2.(cache := [m1, m2], pending := map[s := m2], published := {m1, m2});
    RunExtends(start, [] + [EnterRoom] + [CacheAdd(m1)] + [Broadcast(s)] + [CacheAdd(m2)], DropDuplicate(s));
  }

  lemma ReplayOfTwo(j: Joiner, m1: Message, m2: Message)
    requires Replayed(j, m1) && Replayed(j, m2)
    ensures ToReplay(j, [m1, m2]) == [m1, m2]
  {
    assert [m1, m2][..1] == [m1] && [m1][..0] == [];
    assert ToReplay(j, [m1]) == [m1];
  }

  /** And it happens: the repeat is dropped, and then the joiner's transport comes up. */
  lemma DroppedRepeatIsWritten(sid: Sid, identity: Identity, m1: Message, m2: Message)
    requires m1.sender == m2.sender != sid && 0 < m1.number < m2.number
    requires AddressedTo(m1, identity) && AddressedTo(m2, identity)
    ensures var y := Run(Start(sid, identity, map[]), Repeating(m1, m2) + [ReplayJoining]);
            y.joiner.wire == [m1, m2] && m2 in y.duplicates
  {
    AfterRepeating(sid, identity, m1, m2);
    RunExtends(Start(sid, identity, map[]), Repeating(m1, m2), ReplayJoining);
    var j := Run(Start(sid, identity, map[]), Repeating(m1, m2)).joiner;
    ReplayOfTwo(j, m1, m2);
    ReplayWritesInOrder(j, [m1, m2]);
  }

  // --------------------------------------------------------------- objects

  /** The reliable-data part of ParticipantImpl. */
  class ReliableParticipant {
    const sid: Sid
    const identity: Identity
    var canWriteReliable: bool
    var joiningMessageFirstSeqs: map<Sid, nat>
    var joiningMessageLastWrittenSeqs: map<Sid, nat>
    var wire: seq<Message>

    constructor (sid: Sid, identity: Identity, preset: map<Sid, nat>)
      ensures State() == Start(sid, identity, preset).joiner
    {
      this.sid, this.identity := sid, identity;
      canWriteReliable, joiningMessageFirstSeqs, joiningMessageLastWrittenSeqs, wire := false, preset, map[], [];
    }

    ghost function State(): Joiner
      reads this
    {
      Joiner(sid, identity, canWriteReliable, joiningMessageFirstSeqs, joiningMessageLastWrittenSeqs, wire)
    }

    /** SendDataMessage; false stands for ErrDataChannelUnavailable. */
    method SendDataMessage(reliable: bool, m: Message, active: bool) returns (ok: bool)
      modifies this
      ensures reliable && m.sender != Sid("") && m.number != 0 ==> ok && State() == SendReliable(old(State()), m)
      ensures !(reliable && m.sender != Sid("") && m.number != 0) ==>
                ok == active && State() == if active then old(State()).(wire := old(wire) + [m]) else old(State())
    {
      if m.sender == Sid("") || !reliable || m.number == 0 {
        if !active {
          return false;
        }
        wire := wire + [m];
        return true;
      }
      if !canWriteReliable {
        if m.sender !in joiningMessageFirstSeqs {
          joiningMessageFirstSeqs := joiningMessageFirstSeqs[m.sender := m.number];
        }
        return true;
      }
      if m.sender in joiningMessageLastWrittenSeqs {
        if m.number <= joiningMessageLastWrittenSeqs[m.sender] {
          return true;
        }
        joiningMessageLastWrittenSeqs := joiningMessageLastWrittenSeqs - {m.sender};
      }
      assert joiningMessageLastWrittenSeqs == old(joiningMessageLastWrittenSeqs) - {m.sender};
      wire := wire + [m];
      ok := true;
    }

    /** replayJoiningReliableMessages over the room's cache. */
    method ReplayJoiningReliableMessages(cache: seq<Message>)
      modifies this
      ensures State() == Replay(old(State()), cache)
    {
      var i := 0;
      while i < |cache|
        invariant i <= |cache|
        invariant State() == ReplayFrom(old(State()), cache[..i])
      {
        var m := cache[i];
        assert cache[..i + 1][..i] == cache[..i];
        if m.sender in joiningMessageFirstSeqs && m.number >= joiningMessageFirstSeqs[m.sender] {
          if |m.destIdentities| == 0 || identity in m.destIdentities {
            if m.sender !in joiningMessageLastWrittenSeqs || joiningMessageLastWrittenSeqs[m.sender] < m.number {
              joiningMessageLastWrittenSeqs := joiningMessageLastWrittenSeqs[m.sender := m.number];
            }
            wire := wire + [m];
          }
        }
        i := i + 1;
      }
      assert cache[..i] == cache;
      joiningMessageFirstSeqs := map[];
      canWriteReliable := true;
    }
  }
}
