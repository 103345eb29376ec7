/**
 The signal relay of pkg/routing/signal.go: a sink that batches accepted messages
 under a base sequence number and resends a growing batch until it is acknowledged,
 and a reader that trims what it has already seen or reports a gap.
 */
module SignalRelay {
  import opened Wrappers

  // The functions below are the regions the sink executes while it holds its mutex, and
  // one call of the reader.  A run interleaves them with an unreliable stream: a packet in
  // flight may arrive any number of times or never, whatever `Send` reports, and the reader
  // may be handed any arrived packet in any order.

  datatype Message = Message(payload: string)

  /** RelaySignalRequest / RelaySignalResponse: messages `base`, `base + 1`, ... */
  datatype Packet = Packet(base: nat, msgs: seq<Message>, close: bool) {
    function End(): nat { base + |msgs| }
  }

  // ---------------------------------------------------------------- sink

  /** The mutex-protected fields of the sink, and whether its stream reports an error. */
  datatype Sink = Sink(
    next: nat,
    queue: seq<Message>,
    writing: bool,
    draining: bool,
    streamClosed: bool,
    closeOnFailure: bool)

  /** A writer goroutine: not yet run, or blocked in `Send` with `pkt`.
      `arrived` records that the packet has reached the other side. */
  datatype Writer = Spawned | Sending(pkt: Packet, arrived: bool)

  datatype WriteResult = Accepted | RefusedStreamClosed

  const EmptySink := Sink(0, [], false, false, false, false)

  function WriteMessage(s: Sink, m: Message): (Sink, WriteResult, bool) {
    if s.streamClosed || s.draining then (s, RefusedStreamClosed, false)
    else (s.(queue := s.queue + [m], writing := true), Accepted, !s.writing)
  }

  /** The second component says whether a writer goroutine is started. */
  function CloseSink(s: Sink): (Sink, bool) {
    (s.(draining := true, writing := true), !s.writing)
  }

  /** What the writer does when it leaves its loop, still holding the mutex. */
  function Finish(s: Sink, failed: bool): Sink {
    s.(writing := false, streamClosed := s.streamClosed || s.draining || (failed && s.closeOnFailure))
  }

  /** The head of the writer's loop: leave, or send the whole queue. */
  function LoopHead(s: Sink, failed: bool): (Sink, Option<Writer>) {
    if (!s.draining && s.queue == []) || s.streamClosed then (Finish(s, failed), None)
    else (s, Some(Sending(Packet(s.next, s.queue, s.draining), false)))
  }

  /** From the return of `Send` to the next `Send`, or to the end of the goroutine. */
  function AfterSend(s: Sink, pkt: Packet, failed: bool, expired: bool): (Sink, Option<Writer>)
    requires |pkt.msgs| <= |s.queue|
  {
    if failed && expired then
      (Finish(s.(next := s.next + |s.queue|, queue := []), true), None)
    else if failed then
      LoopHead(s, true)
    else
      var acked := s.(next := s.next + |pkt.msgs|, queue := s.queue[|pkt.msgs|..]);
      if pkt.close then (Finish(acked, false), None) else LoopHead(acked, false)
  }

  // -------------------------------------------------------------- reader

  datatype Status = Running | EndedByClose | Dropped | ChannelRefused | Undecodable

  /** The reader and what it has handed to the message channel. */
  datatype Reader = Reader(next: nat, delivered: seq<Message>, status: Status)

  /** signalMessageReader.Read on a decodable packet: the messages not seen before. */
  function Read(next: nat, pkt: Packet): Option<seq<Message>> {
    if next < pkt.base then None
    else Some(pkt.msgs[Min(next - pkt.base, |pkt.msgs|)..])
  }

  /** One iteration of CopySignalStreamToMessageChannel; the channel takes `room`
      messages before it refuses one. */
  function Receive(r: Reader, pkt: Packet, decodes: bool, room: nat): Reader {
    if !decodes then r.(status := Undecodable)
    else match Read(r.next, pkt)
      case None => r.(status := Dropped)
      case Some(unseen) =>
        var taken := Min(room, |unseen|);
        Reader(r.next + |unseen|, r.delivered + unseen[..taken],
               if taken < |unseen| then ChannelRefused else if pkt.close then EndedByClose else r.status)
  }

  // ---------------------------------------------------------------- runs

  /** The two ends, the packets that have arrived so far (oldest first), how many were
      handed to the reader, and the log of every message `WriteMessage` accepted. */
  datatype System = System(
    sink: Sink,
    writers: seq<Writer>,
    net: seq<Packet>,
    reader: Reader,
    handed: nat,
    log: seq<Message>)

  datatype Event =
    | Write(m: Message)
    | Close
    | WriterStarts(w: nat)
    | Arrive(w: nat)
    | SendReturns(w: nat, failed: bool, expired: bool)
    | StreamFails
    | Hand(k: nat, decodes: bool, room: nat)

  /** Writer `w` goes on as `next`, or ends. */
  function Continue(y: System, w: nat, next: (Sink, Option<Writer>)): System
    requires w < |y.writers|
  {
    y.(sink := next.0,
       writers := if next.1.Some? then y.writers[w := next.1.value] else Without(y.writers, w))
  }

  /** One step of the system; an event that is not enabled changes nothing. */
  function Step(y: System, e: Event): System {
    match e
    case Write(m) =>
      var (sink, res, spawn) := WriteMessage(y.sink, m);
      y.(sink := sink,
         writers := if spawn then y.writers + [Spawned] else y.writers,
         log := if res.Accepted? then y.log + [m] else y.log)
    case Close =>
      var (sink, spawn) := CloseSink(y.sink);
      y.(sink := sink, writers := if spawn then y.writers + [Spawned] else y.writers)
    case WriterStarts(w) =>
      if w < |y.writers| && y.writers[w].Spawned? then Continue(y, w, LoopHead(y.sink, false)) else y
    case Arrive(w) =>
      if w < |y.writers| && y.writers[w].Sending? then
        y.(net := y.net + [y.writers[w].pkt], writers := y.writers[w := y.writers[w].(arrived := true)])
      else y
    case SendReturns(w, failed, expired) =>
      if w < |y.writers| && y.writers[w].Sending? && |y.writers[w].pkt.msgs| <= |y.sink.queue| then
        Continue(y, w, AfterSend(y.sink, y.writers[w].pkt, failed, expired))
      else y
    case StreamFails => y.(sink := y.sink.(streamClosed := true))
    case Hand(k, decodes, room) =>
      if k < |y.net| && y.reader.status.Running? then
        y.(reader := Receive(y.reader, y.net[k], decodes, room), handed := y.handed + 1)
      else y
  }

  function Start(closeOnFailure: bool): System {
    System(EmptySink.(closeOnFailure := closeOnFailure), [], [], Reader(0, [], Running), 0, [])
  }

  function Run(y: System, es: seq<Event>): System {
    if es == [] then y else Step(Run(y, es[..|es| - 1]), es[|es| - 1])
  }

  // ----------------------------------------------------------- invariant

  /** `pkt` carries exactly the accepted messages it is numbered with; a close packet
      carries everything up to the end, and nothing is accepted after it. */
  ghost predicate Faithful(pkt: Packet, log: seq<Message>, draining: bool) {
    && pkt.End() <= |log|
    && pkt.msgs == log[pkt.base..pkt.End()]
    && (pkt.close ==> draining && pkt.End() == |log|)
  }

  ghost predicate SinkInv(s: Sink, log: seq<Message>) {
    s.next <= |log| && s.queue == log[s.next..]
  }

  ghost predicate WriterInv(w: Writer, s: Sink, log: seq<Message>) {
    w.Sending? ==> w.pkt.base == s.next && Faithful(w.pkt, log, s.draining)
  }

  ghost predicate ReaderInv(r: Reader, log: seq<Message>, draining: bool) {
    && |r.delivered| <= r.next <= |log|
    && r.delivered == log[..|r.delivered|]
    && (r.status.Running? ==> |r.delivered| == r.next)
    && (r.status.EndedByClose? ==> draining && |r.delivered| == |log|)
  }

  ghost predicate Inv(y: System) {
    && SinkInv(y.sink, y.log)
    && |y.writers| == (if y.sink.writing then 1 else 0)
    && (forall w :: 0 <= w < |y.writers| ==> WriterInv(y.writers[w], y.sink, y.log))
    && (forall k :: 0 <= k < |y.net| ==> Faithful(y.net[k], y.log, y.sink.draining))
    && ReaderInv(y.reader, y.log, y.sink.draining)
  }

  lemma WriteKeepsInv(y: System, m: Message)
    requires Inv(y)
    ensures Inv(Step(y, Write(m)))
  {
    var z := Step(y, Write(m));
    if z.log != y.log {
      assert z.log == y.log + [m];
      forall a: nat, b: nat | a <= b <= |y.log| ensures z.log[a..b] == y.log[a..b] {}
    }
  }

  lemma LoopHeadKeepsInv(s: Sink, failed: bool, log: seq<Message>)
    requires SinkInv(s, log)
    ensures var (t, w) := LoopHead(s, failed);
            && SinkInv(t, log) && t.draining == s.draining
            && t.writing == (w.Some? && s.writing)
            && (w.Some? ==> w.value.Sending? && !w.value.arrived && t == s && WriterInv(w.value, t, log))
  {
    assert log[s.next..] == log[s.next..|log|];
  }

  lemma AfterSendKeepsInv(s: Sink, pkt: Packet, failed: bool, expired: bool, log: seq<Message>)
    requires SinkInv(s, log) && WriterInv(Sending(pkt, false), s, log)
    ensures |pkt.msgs| <= |s.queue|
    ensures var (t, w) := AfterSend(s, pkt, failed, expired);
            && SinkInv(t, log) && t.draining == s.draining
            && t.writing == (w.Some? && s.writing)
            && (w.Some? ==> w.value.Sending? && !w.value.arrived && WriterInv(w.value, t, log))
  {
    if !(failed && expired) && !failed {
      var acked := s.(next := s.next + |pkt.msgs|, queue := s.queue[|pkt.msgs|..]);
      assert acked.queue == log[acked.next..];
      LoopHeadKeepsInv(acked, false, log);
    } else if failed && !expired {
      LoopHeadKeepsInv(s, true, log);
    }
  }

  lemma ReceiveKeepsInv(r: Reader, pkt: Packet, decodes: bool, room: nat, log: seq<Message>, draining: bool)
    requires r.status.Running? && ReaderInv(r, log, draining) && Faithful(pkt, log, draining)
    ensures ReaderInv(Receive(r, pkt, decodes, room), log, draining)
  {
    var q := Receive(r, pkt, decodes, room);
    if decodes && pkt.base <= r.next {
      var skip := Min(r.next - pkt.base, |pkt.msgs|);
      var unseen := pkt.msgs[skip..];
      if unseen != [] {
        assert skip == r.next - pkt.base;
        assert unseen == log[r.next..pkt.End()];
        assert q.delivered == log[..|q.delivered|];
      }
    }
  }

  /** A writer going on with what LoopHead or AfterSend left. */
  lemma ContinueKeepsInv(y: System, w: nat, next: (Sink, Option<Writer>))
    requires Inv(y) && w < |y.writers|
    requires SinkInv(next.0, y.log) && next.0.draining == y.sink.draining
    requires next.0.writing == (next.1.Some? && y.sink.writing)
    requires next.1.Some? ==> WriterInv(next.1.value, next.0, y.log)
    ensures Inv(Continue(y, w, next))
  {
  }

  lemma ArriveKeepsInv(y: System, w: nat)
    requires Inv(y) && w < |y.writers| && y.writers[w].Sending?
    ensures Inv(Step(y, Arrive(w)))
  {
    assert WriterInv(y.writers[w], y.sink, y.log);
  }

  lemma HandKeepsInv(y: System, e: Event)
    requires Inv(y) && e.Hand? && e.k < |y.net| && y.reader.status.Running?
    ensures Inv(Step(y, e))
  {
    ReceiveKeepsInv(y.reader, y.net[e.k], e.decodes, e.room, y.log, y.sink.draining);
  }

  lemma SinkStepKeepsInv(y: System, e: Event)
    requires Inv(y) && (e.Close? || e.StreamFails?)
    ensures Inv(Step(y, e))
  {
    var z := Step(y, e);
    forall k | 0 <= k < |z.net| ensures Faithful(z.net[k], z.log, z.sink.draining) {
      assert Faithful(y.net[k], y.log, y.sink.draining);
    }
  }

  lemma StepKeepsInv(y: System, e: Event)
    requires Inv(y)
    ensures Inv(Step(y, e))
  {
    if e.Write? {
      WriteKeepsInv(y, e.m);
    } else if e.Close? || e.StreamFails? {
      SinkStepKeepsInv(y, e);
    } else if e.Hand? {
      if e.k < |y.net| && y.reader.status.Running? { HandKeepsInv(y, e); }
    } else if e.w < |y.writers| {
      if e.WriterStarts? {
        LoopHeadKeepsInv(y.sink, false, y.log);
        ContinueKeepsInv(y, e.w, LoopHead(y.sink, false));
      } else if y.writers[e.w].Sending? {
        if e.Arrive? {
          ArriveKeepsInv(y, e.w);
        } else {
          var pkt := y.writers[e.w].pkt;
          AfterSendKeepsInv(y.sink, pkt, e.failed, e.expired, y.log);
          ContinueKeepsInv(y, e.w, AfterSend(y.sink, pkt, e.failed, e.expired));
        }
      }
    }
  }

  lemma {:induction false} RunKeepsInv(y: System, es: seq<Event>)
    requires Inv(y)
    ensures Inv(Run(y, es))
  {
    if es != [] {
      RunKeepsInv(y, es[..|es| - 1]);
      StepKeepsInv(Run(y, es[..|es| - 1]), es[|es| - 1]);
    }
  }

  // -------------------------------------------------------- main results

  /** In every run over the unreliable stream the channel holds a gap-free,
      duplicate-free, in-order prefix of what the sink accepted. */
  lemma {:induction false} DeliversPrefix(closeOnFailure: bool, es: seq<Event>)
    ensures var y := Run(Start(closeOnFailure), es); y.reader.delivered <= y.log
  {
    RunKeepsInv(Start(closeOnFailure), es);
  }

  /** A reader that ended through the close flag has delivered every message the sink
      ever accepted, in this state and in every later one. */
  lemma {:induction false} CleanCloseDeliversAll(closeOnFailure: bool, es: seq<Event>, more: seq<Event>)
    requires Run(Start(closeOnFailure), es).reader.status.EndedByClose?
    ensures var y := Run(Run(Start(closeOnFailure), es), more);
            y.reader.delivered == y.log == Run(Start(closeOnFailure), es).log
  {
    var y := Run(Start(closeOnFailure), es);
    RunKeepsInv(Start(closeOnFailure), es);
    EndedReaderStays(y, more);
    RunKeepsInv(y, more);
  }

  lemma {:induction false} EndedReaderStays(y: System, es: seq<Event>)
    requires !y.reader.status.Running?
    ensures Run(y, es).reader == y.reader
  {
    if es != [] { EndedReaderStays(y, es[..|es| - 1]); }
  }

  /** At most one writer goroutine exists, exactly while `writing` is set. */
  lemma {:induction false} OneWriter(closeOnFailure: bool, es: seq<Event>)
    ensures var y := Run(Start(closeOnFailure), es);
            |y.writers| <= 1 && (y.writers != [] <==> y.sink.writing)
  {
    RunKeepsInv(Start(closeOnFailure), es);
  }

  /** The reader reports a drop exactly when the packet starts beyond what it has
      delivered, and then nothing beyond the gap is ever delivered. */
  lemma {:induction false} GapStopsReader(closeOnFailure: bool, es: seq<Event>, k: nat, room: nat, more: seq<Event>)
    requires k < |Run(Start(closeOnFailure), es).net|
    requires Run(Start(closeOnFailure), es).reader.status.Running?
    ensures var y := Run(Start(closeOnFailure), es);
            var z := Step(y, Hand(k, true, room));
            && (z.reader.status.Dropped? <==> |y.reader.delivered| < y.net[k].base)
            && (z.reader.status.Dropped? ==> Run(z, more).reader.delivered == y.reader.delivered < y.log)
  {
    var y := Run(Start(closeOnFailure), es);
    RunKeepsInv(Start(closeOnFailure), es);
    var z := Step(y, Hand(k, true, room));
    if z.reader.status.Dropped? { EndedReaderStays(z, more); }
  }

  // -------------------------------------------------------- deadline drops

  /** Message `lost` is in no arrived packet, and the sink has moved past it. */
  ghost predicate Gap(y: System, lost: nat) {
    && lost < y.sink.next
    && y.reader.next <= lost
    && (forall k :: 0 <= k < |y.net| ==> y.net[k].End() <= lost || lost < y.net[k].base)
  }

  lemma HandKeepsGap(y: System, e: Event, lost: nat)
    requires Inv(y) && Gap(y, lost) && e.Hand? && e.k < |y.net|
    ensures Receive(y.reader, y.net[e.k], e.decodes, e.room).next <= lost
  {
    assert y.net[e.k].End() <= lost || lost < y.net[e.k].base;
  }

  lemma SinkAdvances(y: System, e: Event)
    requires Inv(y)
    ensures y.sink.next <= Step(y, e).sink.next
  {
  }

  lemma StepKeepsGap(y: System, e: Event, lost: nat)
    requires Inv(y) && Gap(y, lost)
    ensures Gap(Step(y, e), lost)
  {
    var z := Step(y, e);
    SinkAdvances(y, e);
    if e.Hand? {
      if e.k < |y.net| { HandKeepsGap(y, e, lost); }
    } else if e.Arrive? {
      if e.w < |y.writers| && y.writers[e.w].Sending? {
        assert WriterInv(y.writers[e.w], y.sink, y.log);
        assert z.net == y.net + [y.writers[e.w].pkt];
      }
    } else {
      assert z.net == y.net && z.reader == y.reader;
    }
  }

  lemma {:induction false} GapStays(y: System, lost: nat, es: seq<Event>)
    requires Inv(y) && Gap(y, lost)
    ensures Gap(Run(y, es), lost)
  {
    if es != [] {
      GapStays(y, lost, es[..|es| - 1]);
      RunKeepsInv(y, es[..|es| - 1]);
      StepKeepsGap(Run(y, es[..|es| - 1]), es[|es| - 1], lost);
    }
  }

  /** When the retry deadline makes the sink throw its queue away, a queued message that no
      arrived packet covers is lost for good: the reader never gets past it and never
      ends as if the stream had been delivered. */
  lemma {:induction false} DeadlineDropIsVisible(closeOnFailure: bool, es: seq<Event>, w: nat, lost: nat, more: seq<Event>)
    requires var y := Run(Start(closeOnFailure), es);
             && w < |y.writers| && y.writers[w].Sending?
             && y.sink.next <= lost < |y.log|
             && y.reader.next <= lost
             && (forall k :: 0 <= k < |y.net| ==> y.net[k].End() <= lost)
    ensures var z := Run(Step(Run(Start(closeOnFailure), es), SendReturns(w, true, true)), more);
            |z.reader.delivered| <= lost && !z.reader.status.EndedByClose?
  {
    var y := Run(Start(closeOnFailure), es);
    RunKeepsInv(Start(closeOnFailure), es);
    var z := Step(y, SendReturns(w, true, true));
    StepKeepsInv(y, SendReturns(w, true, true));
    assert z.sink.next == |y.log|;
    GapStays(z, lost, more);
    RunKeepsInv(z, more);
    var last := Run(z, more);
    assert last.sink.next <= |last.log|;
  }

  // ---------------------------------------------- in-order, loss-free runs

  /** The stream discipline that makes a reported drop a real one: arrived packets are
      handed over once each in arrival order and decode, a `Send` that succeeds has arrived,
      and no retry deadline passes. */
  ghost predicate InOrder(y: System, e: Event) {
    match e
    case SendReturns(w, failed, expired) =>
      if failed then !expired else w < |y.writers| && y.writers[w].Sending? ==> y.writers[w].arrived
    case Hand(k, decodes, room) => k == y.handed && decodes
    case _ => true
  }

  ghost predicate InOrderRun(y: System, es: seq<Event>) {
    es == [] || (InOrderRun(y, es[..|es| - 1]) && InOrder(Run(y, es[..|es| - 1]), es[|es| - 1]))
  }

  /** How far the first `n` arrived packets reach. */
  function Cover(net: seq<Packet>, n: nat): nat
    requires n <= |net|
  {
    if n == 0 then 0
    else
      var before := Cover(net, n - 1);
      if before < net[n - 1].End() then net[n - 1].End() else before
  }

  lemma {:induction false} CoverAtLeast(net: seq<Packet>, n: nat, k: nat)
    requires k < n <= |net|
    ensures net[k].End() <= Cover(net, n)
  {
    if k < n - 1 { CoverAtLeast(net, n - 1, k); }
  }

  lemma {:induction false} CoverOfPrefix(net: seq<Packet>, more: seq<Packet>, n: nat)
    requires n <= |net|
    ensures Cover(net + more, n) == Cover(net, n)
  {
    if n > 0 { CoverOfPrefix(net, more, n - 1); }
  }

  /** Packet `k` starts where what arrived before it ends, or earlier. */
  ghost predicate Continues(net: seq<Packet>, k: nat)
    requires k < |net|
  {
    net[k].base <= Cover(net, k)
  }

  ghost predicate Continuous(net: seq<Packet>) {
    forall k {:trigger Continues(net, k)} :: 0 <= k < |net| ==> Continues(net, k)
  }

  ghost predicate Arrived(y: System) {
    forall w :: 0 <= w < |y.writers| && y.writers[w].Sending? && y.writers[w].arrived ==> y.writers[w].pkt in y.net
  }

  /** Everything acknowledged has arrived, every packet continues what arrived before it,
      and the reader is level with what it was handed. */
  ghost predicate Covered(y: System) {
    && y.sink.next <= Cover(y.net, |y.net|)
    && Continuous(y.net) && Arrived(y)
    && y.handed <= |y.net|
    && (y.reader.status.Running? ==> y.reader.next == Cover(y.net, y.handed))
    && !y.reader.status.Dropped?
  }

  lemma ReceiveLevels(r: Reader, pkt: Packet, room: nat)
    requires pkt.base <= r.next && r.status.Running?
    ensures var q := Receive(r, pkt, true, room);
            !q.status.Dropped? && q.next == if r.next < pkt.End() then pkt.End() else r.next
  {
  }

  lemma HandKeepsCovered(y: System, e: Event)
    requires Covered(y) && e.Hand? && InOrder(y, e) && e.k < |y.net| && y.reader.status.Running?
    ensures Covered(Step(y, e))
  {
    var z := Step(y, e);
    assert Continues(y.net, e.k);
    ReceiveLevels(y.reader, y.net[e.k], e.room);
    assert z == y.(reader := z.reader, handed := y.handed + 1);
  }

  lemma AppendContinuous(net: seq<Packet>, pkt: Packet)
    requires Continuous(net) && pkt.base <= Cover(net, |net|)
    ensures Continuous(net + [pkt])
  {
    var all := net + [pkt];
    forall k | 0 <= k < |all| ensures Continues(all, k) {
      CoverOfPrefix(net, [pkt], k);
      if k < |net| { assert Continues(net, k) && all[k] == net[k]; }
    }
  }

  lemma ArriveKeepsCovered(y: System, w: nat)
    requires Inv(y) && Covered(y) && w < |y.writers| && y.writers[w].Sending?
    ensures Covered(Step(y, Arrive(w)))
  {
    var z, pkt := Step(y, Arrive(w)), y.writers[w].pkt;
    assert WriterInv(y.writers[w], y.sink, y.log);
    assert z.net == y.net + [pkt] && z.net[|y.net|] == pkt;
    AppendContinuous(y.net, pkt);
    CoverOfPrefix(y.net, [pkt], |y.net|);
    CoverOfPrefix(y.net, [pkt], y.handed);
    ArrivedStaysArrived(y, w);
  }

  lemma ArrivedStaysArrived(y: System, w: nat)
    requires Arrived(y) && w < |y.writers| && y.writers[w].Sending?
    ensures Arrived(Step(y, Arrive(w)))
  {
    var z := Step(y, Arrive(w));
    assert z.net[|y.net|] == y.writers[w].pkt;
    assert forall p :: p in y.net ==> p in z.net;
  }

  lemma SendReturnsKeepsCovered(y: System, e: Event)
    requires Inv(y) && Covered(y) && e.SendReturns? && InOrder(y, e)
    requires e.w < |y.writers| && y.writers[e.w].Sending?
    ensures Covered(Step(y, e))
  {
    var z, pkt := Step(y, e), y.writers[e.w].pkt;
    AfterSendKeepsInv(y.sink, pkt, e.failed, e.expired, y.log);
    assert z.net == y.net && z.reader == y.reader && z.handed == y.handed;
    assert forall w :: 0 <= w < |z.writers| && z.writers[w].Sending? ==> !z.writers[w].arrived;
    if !e.failed {
      assert z.sink.next == pkt.End();
      var k :| 0 <= k < |y.net| && y.net[k] == pkt;
      CoverAtLeast(y.net, |y.net|, k);
    }
  }

  lemma OtherKeepsCovered(y: System, e: Event)
    requires Inv(y) && Covered(y) && (e.Write? || e.Close? || e.StreamFails? || e.WriterStarts?)
    ensures Covered(Step(y, e))
  {
    var z := Step(y, e);
    assert z.net == y.net && z.reader == y.reader && z.handed == y.handed && z.sink.next == y.sink.next;
  }

  lemma StepKeepsCovered(y: System, e: Event)
    requires Inv(y) && Covered(y) && InOrder(y, e)
    ensures Covered(Step(y, e))
  {
    if e.Hand? {
      if e.k < |y.net| && y.reader.status.Running? { HandKeepsCovered(y, e); }
    } else if e.Arrive? {
      if e.w < |y.writers| && y.writers[e.w].Sending? { ArriveKeepsCovered(y, e.w); }
    } else if e.SendReturns? {
      if e.w < |y.writers| && y.writers[e.w].Sending? { SendReturnsKeepsCovered(y, e); }
    } else {
      OtherKeepsCovered(y, e);
    }
  }

  lemma {:induction false} RunKeepsCovered(y: System, es: seq<Event>)
    requires Inv(y) && Covered(y) && InOrderRun(y, es)
    ensures Covered(Run(y, es))
  {
    if es != [] {
      RunKeepsCovered(y, es[..|es| - 1]);
      RunKeepsInv(y, es[..|es| - 1]);
      StepKeepsCovered(Run(y, es[..|es| - 1]), es[|es| - 1]);
    }
  }

  /** With an in-order loss-free stream the reader never reports a drop, however often
      sends fail and are retried; once all arrived packets are handed over and the queue
      is empty, everything accepted has been delivered. */
  lemma {:induction false} NoFalseDrops(closeOnFailure: bool, es: seq<Event>)
    requires InOrderRun(Start(closeOnFailure), es)
    ensures var y := Run(Start(closeOnFailure), es);
            && !y.reader.status.Dropped?
            && (y.reader.status.Running? && y.handed == |y.net| && y.sink.queue == [] ==> y.reader.delivered == y.log)
  {
    var y := Run(Start(closeOnFailure), es);
    RunKeepsInv(Start(closeOnFailure), es);
    RunKeepsCovered(Start(closeOnFailure), es);
    if y.reader.status.Running? && y.handed == |y.net| && y.sink.queue == [] {
      assert y.reader.next == |y.log|;
    }
  }
}
