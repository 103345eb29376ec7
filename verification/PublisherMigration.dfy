/**
 Reliable sequences of one publisher across a migration (pkg/rtc/participant.go,
 pkg/rtc/migrationdatacache.go).  The old node forwards only growing sequences and stops
 for good when it is asked for its last one; the new node starts from that sequence and
 holds back everything until its successor arrives or the wait times out.
 */
module PublisherMigration {
  import opened Wrappers

  // Handling one incoming message is one step.

  /** uint32 */
  type Seq = n: nat | n < 0x1_0000_0000 witness 0

  function Successor(n: Seq): Seq { (n + 1) % 0x1_0000_0000 }

  datatype CacheState = Waiting | TimedOut | Done

  datatype Cache = Cache(lastSeq: Seq, pkts: seq<Seq>, state: CacheState)

  /** MigrationDataCache.Add; `expired` is the comparison of the clock with expiredAt. */
  function CacheAdd(c: Cache, n: Seq, expired: bool): Cache {
    if !c.state.Waiting? || n <= c.lastSeq then c
    else if n == Successor(c.lastSeq) then c.(state := Done)
    else c.(pkts := c.pkts + [n], state := if expired then TimedOut else Waiting)
  }

  /** The publishing side of one participant session, and what it forwarded to its room. */
  datatype Publisher = Publisher(
    last: Seq,
    stopped: bool,
    cache: Option<Cache>,
    forwarded: seq<Seq>)

  /** The sequence check of handleReceivedDataMessage. */
  function Forward(p: Publisher, n: Seq): Publisher {
    if n <= p.last then p else p.(last := n, forwarded := p.forwarded + [n])
  }

  function ForwardAll(p: Publisher, ns: seq<Seq>): Publisher {
    if ns == [] then p else Forward(ForwardAll(p, ns[..|ns| - 1]), ns[|ns| - 1])
  }

  /** onReceivedDataMessage for a reliable packet with a positive sequence. */
  function OnReceived(p: Publisher, n: Seq, expired: bool): Publisher {
    if p.stopped then p
    else match p.cache
      case None => Forward(p, n)
      case Some(c) =>
        var d := CacheAdd(c, n, expired);
        match d.state
        case Waiting => p.(cache := Some(d))
        case TimedOut => ForwardAll(p.(cache := None), d.pkts)
        case Done => Forward(p.(cache := None), n)
  }

  /** A session created with LastPubReliableSeq, once SetMigrateState(COMPLETE) has run. */
  function MigratedIn(last: Seq): Publisher {
    Publisher(last, false, if last > 0 then Some(Cache(last, [], Waiting)) else None, [])
  }

  const NewPublisher := Publisher(0, false, None, [])

  // ---------------------------------------------------------------- runs

  /** Either node receives a packet, in any order and any number of times, or the old node is
      asked for its last sequence, which starts the session on the new node. */
  datatype Event =
    | AtOld(n: Seq, expired: bool)
    | AtNew(n: Seq, expired: bool)
    | MigrateOut

  /** `handover` is the sequence the old node answered with. */
  datatype Migration = Migration(oldNode: Publisher, handover: Option<Seq>, newNode: Option<Publisher>, timedOut: bool)

  /** This packet makes the cache give up waiting. */
  predicate TimesOut(p: Publisher, n: Seq, expired: bool) {
    !p.stopped && p.cache.Some? && CacheAdd(p.cache.value, n, expired).state.TimedOut?
  }

  function Step(m: Migration, e: Event): Migration {
    match e
    case AtOld(n, expired) => if n > 0 then m.(oldNode := OnReceived(m.oldNode, n, expired)) else m
    case AtNew(n, expired) =>
      if n > 0 && m.newNode.Some? then
        m.(newNode := Some(OnReceived(m.newNode.value, n, expired)),
           timedOut := m.timedOut || TimesOut(m.newNode.value, n, expired))
      else m
    case MigrateOut =>
      // GetLastReliableSequence(true)
      if m.newNode.None? then
        m.(oldNode := m.oldNode.(stopped := true), handover := Some(m.oldNode.last), newNode := Some(MigratedIn(m.oldNode.last)))
      else m
  }

  function Run(m: Migration, es: seq<Event>): Migration {
    if es == [] then m else Step(Run(m, es[..|es| - 1]), es[|es| - 1])
  }

  /** `first` is the old node's session: a fresh one, or itself migrated in. */
  function Begin(first: Publisher): Migration { Migration(first, None, None, false) }

  function AllForwarded(m: Migration): seq<Seq> {
    m.oldNode.forwarded + if m.newNode.Some? then m.newNode.value.forwarded else []
  }

  // ------------------------------------------------------------ invariant

  ghost predicate Increasing(s: seq<Seq>) {
    forall i, j :: 0 <= i < j < |s| ==> s[i] < s[j]
  }

  /** What was forwarded lies above `floor`, grows, and ends with `last`. */
  ghost predicate PublisherInv(p: Publisher, floor: Seq) {
    && Increasing(p.forwarded)
    && floor <= p.last
    && (forall i :: 0 <= i < |p.forwarded| ==> floor < p.forwarded[i] <= p.last)
    && (p.forwarded == [] ==> p.last == floor)
    && (p.cache.Some? ==>
          p.forwarded == [] && p.cache.value.lastSeq == floor && p.cache.value.state.Waiting?
          && forall i :: 0 <= i < |p.cache.value.pkts| ==> p.cache.value.pkts[i] > 0)
  }

  lemma {:induction false} ForwardAllKeepsInv(p: Publisher, ns: seq<Seq>, floor: Seq)
    requires PublisherInv(p, floor) && p.cache.None?
    ensures PublisherInv(ForwardAll(p, ns), floor) && ForwardAll(p, ns).cache.None?
    ensures ForwardAll(p, ns).stopped == p.stopped
  {
    if ns != [] { ForwardAllKeepsInv(p, ns[..|ns| - 1], floor); }
  }

  lemma OnReceivedKeepsInv(p: Publisher, n: Seq, expired: bool, floor: Seq)
    requires PublisherInv(p, floor) && n > 0
    ensures PublisherInv(OnReceived(p, n, expired), floor)
  {
    if !p.stopped && p.cache.Some? {
      var d := CacheAdd(p.cache.value, n, expired);
      if d.state.TimedOut? { ForwardAllKeepsInv(p.(cache := None), d.pkts, floor); }
    }
  }

  /** Unless the wait timed out, the new node forwards the successor of the handover first. */
  ghost predicate ContinuesAt(p: Publisher, last: Seq) {
    && (p.cache.None? ==> p.forwarded != [] && p.forwarded[0] == Successor(last))
    && (p.cache.Some? ==> p.forwarded == [])
  }

  ghost predicate Inv(m: Migration, floor: Seq) {
    && PublisherInv(m.oldNode, floor)
    && (m.newNode.Some? <==> m.handover.Some?)
    && (m.newNode.Some? ==>
          && m.oldNode.stopped && m.handover.value == m.oldNode.last
          && PublisherInv(m.newNode.value, m.handover.value)
          && (m.handover.value > 0 && !m.timedOut ==> ContinuesAt(m.newNode.value, m.handover.value)))
  }

  lemma {:induction false} RunKeepsInv(m: Migration, es: seq<Event>, floor: Seq)
    requires Inv(m, floor)
    ensures Inv(Run(m, es), floor)
  {
    if es != [] {
      RunKeepsInv(m, es[..|es| - 1], floor);
      var n, e := Run(m, es[..|es| - 1]), es[|es| - 1];
      if e.AtOld? && e.n > 0 { OnReceivedKeepsInv(n.oldNode, e.n, e.expired, floor); }
      if e.AtNew? && e.n > 0 && n.newNode.Some? { OnReceivedKeepsInv(n.newNode.value, e.n, e.expired, n.handover.value); }
    }
  }

  // -------------------------------------------------------- main results

  /** In any arrival order and with any repetition on both nodes, what the old node forwards
      followed by what the new node forwards is strictly increasing. */
  lemma {:induction false} NeverRepeatsAcrossMigration(es: seq<Event>)
    ensures Increasing(AllForwarded(Run(Begin(NewPublisher), es)))
  {
    RunKeepsInv(Begin(NewPublisher), es, 0);
  }

  /** The same for a session that was itself migrated in, above where that one began. */
  lemma {:induction false} NeverRepeatsAcrossChain(last: Seq, es: seq<Event>)
    ensures var s := AllForwarded(Run(Begin(MigratedIn(last)), es));
            Increasing(s) && forall i :: 0 <= i < |s| ==> last < s[i]
  {
    RunKeepsInv(Begin(MigratedIn(last)), es, last);
  }

  /** Unless the wait times out, what the new node forwards first is the successor of the old
      node's last sequence: nothing is skipped at the handover.  The old node's session is one
      that was itself migrated in with `last`, or a fresh one if that is zero. */
  lemma {:induction false} ContinuesWithoutGap(last: Seq, es: seq<Event>)
    requires var m := Run(Begin(MigratedIn(last)), es);
             m.handover.Some? && m.newNode.Some? && m.handover.value > 0
             && !m.timedOut && m.newNode.value.forwarded != []
    ensures var m := Run(Begin(MigratedIn(last)), es);
            m.handover.value == m.oldNode.last && m.newNode.value.forwarded[0] == Successor(m.oldNode.last)
  {
    RunKeepsInv(Begin(MigratedIn(last)), es, last);
  }

  /** The hold-back needs a sequence to wait for: after a handover of zero the first packet
      goes through whatever it is, so only sequence one continues without a gap. */
  lemma NothingToWaitFor(n: Seq, expired: bool)
    requires n > 0
    ensures OnReceived(MigratedIn(0), n, expired).forwarded == [n]
    ensures OnReceived(MigratedIn(0), n, expired).forwarded[0] == Successor(0) <==> n == 1
  {
  }

  /** `last + 1`, ..., `last + k` */
  function Following(last: Seq, k: nat): (s: seq<Seq>)
    requires last + k < 0x1_0000_0000
    ensures |s| == k
  {
    if k == 0 then [] else Following(last, k - 1) + [last + k]
  }

  function ReceiveAll(p: Publisher, ns: seq<Seq>): Publisher {
    if ns == [] then p else OnReceived(ReceiveAll(p, ns[..|ns| - 1]), ns[|ns| - 1], false)
  }

  lemma {:induction false} JunkIsHeld(last: Seq, junk: seq<Seq>)
    requires last > 0 && Successor(last) !in junk
    ensures var p := ReceiveAll(MigratedIn(last), junk);
            p.cache.Some? && p.cache.value.state.Waiting? && p.cache.value.lastSeq == last
            && p.last == last && p.forwarded == [] && !p.stopped
  {
    if junk != [] {
      assert junk == junk[..|junk| - 1] + [junk[|junk| - 1]];
      JunkIsHeld(last, junk[..|junk| - 1]);
    }
  }

  /** The client resends from the successor on, whatever reached the new node before: exactly
      the resent messages are forwarded, in order. */
  lemma {:induction false} ResendIsExact(last: Seq, junk: seq<Seq>, k: nat)
    requires 0 < last && last + k < 0x1_0000_0000 && Successor(last) !in junk
    ensures var p := ReceiveAll(MigratedIn(last), junk + Following(last, k));
            && p.forwarded == Following(last, k) && p.last == last + k && !p.stopped
            && (k == 0 <==> p.cache.Some?)
    decreases k
  {
    if k == 0 {
      JunkIsHeld(last, junk);
      assert junk + Following(last, k) == junk;
    } else {
      ResendIsExact(last, junk, k - 1);
      var before, all := junk + Following(last, k - 1), junk + Following(last, k);
      var p := ReceiveAll(MigratedIn(last), before);
      assert all == before + [last + k];
      assert all[..|all| - 1] == before;
      assert ReceiveAll(MigratedIn(last), all) == OnReceived(p, last + k, false);
      if k == 1 {
        JunkIsHeld(last, junk);
        assert before == junk;
      }
    }
  }

  // --------------------------------------------------------------- objects

  class MigrationDataCache {
    const lastSeq: Seq
    var pkts: seq<Seq>
    var state: CacheState

    constructor (lastSeq: Seq)
      ensures Value() == Cache(lastSeq, [], Waiting)
    {
      this.lastSeq := lastSeq;
      pkts, state := [], Waiting;
    }

    ghost function Value(): Cache
      reads this
    {
      Cache(lastSeq, pkts, state)
    }

    method Add(n: Seq, expired: bool) returns (res: CacheState)
      modifies this
      ensures Value() == CacheAdd(old(Value()), n, expired) && res == state
    {
      if state == Done || state == TimedOut {
        return state;
      }
      if n <= lastSeq {
        return state;
      }
      if n == Successor(lastSeq) {
        state := Done;
        return state;
      }
      pkts := pkts + [n];
      if expired {
        state := TimedOut;
      }
      res := state;
    }
  }

  /** The publishing side of ParticipantImpl. */
  class PublishingParticipant {
    var lastPubReliableSeq: Seq
    var stopReliableByMigrateOut: bool
    var migrateInPubDataCache: MigrationDataCache?
    var forwarded: seq<Seq>

    constructor (lastPubReliableSeq: Seq)
      ensures State() == Publisher(lastPubReliableSeq, false, None, [])
      ensures migrateInPubDataCache == null
    {
      this.lastPubReliableSeq := lastPubReliableSeq;
      stopReliableByMigrateOut, migrateInPubDataCache, forwarded := false, null, [];
    }

    ghost function State(): Publisher
      reads this, migrateInPubDataCache
    {
      Publisher(lastPubReliableSeq, stopReliableByMigrateOut,
                if migrateInPubDataCache == null then None else Some(migrateInPubDataCache.Value()), forwarded)
    }

    /** SetMigrateState(COMPLETE) after SYNC, on a session created with `last`. */
    method CompleteMigration(last: Seq)
      modifies this
      ensures State() == if last > 0 then old(State()).(cache := Some(Cache(last, [], Waiting))) else old(State())
      ensures old(State()) == Publisher(last, false, None, []) ==> State() == MigratedIn(last)
      ensures migrateInPubDataCache == old(migrateInPubDataCache) || fresh(migrateInPubDataCache)
    {
      if last > 0 {
        migrateInPubDataCache := new MigrationDataCache(last);
      }
    }

    method GetLastReliableSequence(migrateOut: bool) returns (last: Seq)
      modifies this
      ensures last == old(lastPubReliableSeq)
      ensures State() == old(State()).(stopped := old(stopReliableByMigrateOut) || migrateOut)
    {
      if migrateOut {
        stopReliableByMigrateOut := true;
      }
      last := lastPubReliableSeq;
    }

    method HandleReceivedDataMessage(n: Seq)
      modifies this
      ensures migrateInPubDataCache == old(migrateInPubDataCache)
      ensures State() == Forward(old(State()), n)
    {
      if lastPubReliableSeq >= n {
        return;
      }
      lastPubReliableSeq := n;
      forwarded := forwarded + [n];
    }

    method OnReceivedDataMessage(n: Seq, expired: bool)
      modifies this, migrateInPubDataCache
      ensures State() == OnReceived(old(State()), n, expired)
    {
      if stopReliableByMigrateOut {
        return;
      }
      if migrateInPubDataCache != null {
        var cache := migrateInPubDataCache;
        var state := cache.Add(n, expired);
        match state {
          case Waiting =>
            return;
          case TimedOut =>
            migrateInPubDataCache := null;
            ghost var began := State();
            var cached := cache.pkts;
            var i := 0;
            while i < |cached|
              invariant i <= |cached| && migrateInPubDataCache == null
              invariant State() == ForwardAll(began, cached[..i])
            {
              assert cached[..i + 1][..i] == cached[..i];
              HandleReceivedDataMessage(cached[i]);
              i := i + 1;
            }
            assert cached[..i] == cached;
            return;
          case Done =>
            migrateInPubDataCache := null;
        }
      }
      HandleReceivedDataMessage(n);
    }
  }
}
