/**
 What the signal relay of pkg/routing/signal.go does deliver: nothing accepted is left
 without a writer, and a writer sends all that is unacknowledged.
 */
module SignalDelivery {
  import opened SignalRelay
  import opened Wrappers

  // ---------------------------------------------------- nothing is left

  /** On an open stream unacknowledged messages, or a close still to be sent, have a writer, and no
      packet is sent for nothing. */
  ghost predicate Attended(y: System) {
    && (!y.sink.streamClosed && (y.sink.queue != [] || y.sink.draining) ==> y.writers != [])
    && (forall w :: w in y.writers && w.Sending? ==> w.pkt.msgs != [] || w.pkt.close)
  }

  lemma StepKeepsAttended(y: System, e: Event)
    requires Inv(y) && Attended(y)
    ensures Attended(Step(y, e))
  {
    if e.SendReturns? && e.w < |y.writers| && y.writers[e.w].Sending? {
      assert WriterInv(y.writers[e.w], y.sink, y.log);
      AfterSendKeepsInv(y.sink, y.writers[e.w].pkt, e.failed, e.expired, y.log);
    }
  }

  lemma {:induction false} RunAttended(closeOnFailure: bool, es: seq<Event>)
    ensures Attended(Run(Start(closeOnFailure), es))
  {
    if es != [] {
      RunAttended(closeOnFailure, es[..|es| - 1]);
      RunKeepsInv(Start(closeOnFailure), es[..|es| - 1]);
      StepKeepsAttended(Run(Start(closeOnFailure), es[..|es| - 1]), es[|es| - 1]);
    }
  }

  // ------------------------------------------------- accepting and closing

  /** A message is accepted exactly while the stream is open and Close has not been called; it is
      then the next one of the log, and a refused one leaves everything as it was. */
  lemma AcceptsIffOpen(y: System, m: Message)
    ensures var z := Step(y, Write(m));
            if !y.sink.streamClosed && !y.sink.draining
            then z.log == y.log + [m] && z.sink.queue == y.sink.queue + [m] && z.sink.next == y.sink.next
            else z == y
  {
  }

  /** Only Close makes the sink refuse messages, and only these steps close the stream: a failure
      of the stream itself, a successful send of the close flag, and a send that fails past the
      deadline of a draining sink or of one that closes on failure. */
  lemma StreamClosesIff(closeOnFailure: bool, es: seq<Event>, e: Event)
    requires !Run(Start(closeOnFailure), es).sink.streamClosed
    ensures var y := Run(Start(closeOnFailure), es);
            var z := Step(y, e);
            && (z.sink.draining <==> y.sink.draining || e.Close?)
            && (z.sink.streamClosed <==>
                 || e.StreamFails?
                 || (e.SendReturns? && e.w < |y.writers| && y.writers[e.w].Sending? &&
                     if e.failed then e.expired && (y.sink.draining || closeOnFailure) else y.writers[e.w].pkt.close))
  {
    var y := Run(Start(closeOnFailure), es);
    RunKeepsInv(Start(closeOnFailure), es);
    RunAttended(closeOnFailure, es);
    SettingStays(closeOnFailure, es);
    if e.SendReturns? {
      if e.w < |y.writers| && y.writers[e.w].Sending? {
        assert WriterInv(y.writers[e.w], y.sink, y.log) && y.writers[e.w] in y.writers;
        AfterSendCloses(y.sink, y.writers[e.w].pkt, e.failed, e.expired, y.log);
      }
    } else {
      assert !e.StreamFails? ==> Step(y, e).sink.streamClosed == (e.WriterStarts? && Step(y, e).sink.streamClosed);
    }
  }

  lemma AfterSendCloses(s: Sink, pkt: Packet, failed: bool, expired: bool, log: seq<Message>)
    requires !s.streamClosed && SinkInv(s, log) && WriterInv(Sending(pkt, false), s, log) && (pkt.msgs != [] || pkt.close)
    ensures |pkt.msgs| <= |s.queue|
    ensures var t := AfterSend(s, pkt, failed, expired).0;
            && t.draining == s.draining
            && (t.streamClosed <==> if failed then expired && (s.draining || s.closeOnFailure) else pkt.close)
  {
    if !failed {
      assert |pkt.msgs| <= |s.queue|;
    } else if !expired {
      assert pkt.close ==> s.draining;
    }
  }

  lemma {:induction false} SettingStays(closeOnFailure: bool, es: seq<Event>)
    ensures Run(Start(closeOnFailure), es).sink.closeOnFailure == closeOnFailure
  {
    if es != [] { SettingStays(closeOnFailure, es[..|es| - 1]); }
  }

  /** In every run: while the stream is open, messages not yet acknowledged have a writer, and
      so has a close that is still to be sent. */
  lemma {:induction false} NothingUnattended(closeOnFailure: bool, es: seq<Event>)
    ensures var y := Run(Start(closeOnFailure), es);
            !y.sink.streamClosed && (y.sink.queue != [] || y.sink.draining) ==> |y.writers| == 1
  {
    RunAttended(closeOnFailure, es);
    OneWriter(closeOnFailure, es);
  }

  /** All that is unacknowledged, in one packet. */
  function Everything(y: System): Packet
    requires y.sink.next <= |y.log|
  {
    Packet(y.sink.next, y.log[y.sink.next..], y.sink.draining)
  }

  /** The writer of an open stream starts, or its send has returned before the deadline without the
      close flag having been sent: it goes on with all that is unacknowledged, or ends when there is
      nothing to send.  A failed send acknowledges nothing, a successful one what was in it. */
  lemma {:induction false} WriterGoesOn(closeOnFailure: bool, es: seq<Event>, e: Event)
    requires var y := Run(Start(closeOnFailure), es);
             && !y.sink.streamClosed && |y.writers| == 1
             && match e
                case WriterStarts(w) => w == 0 && y.writers[0].Spawned?
                case SendReturns(w, failed, expired) =>
                  w == 0 && y.writers[0].Sending? && if failed then !expired else !y.writers[0].pkt.close
                case _ => false
    ensures var y := Run(Start(closeOnFailure), es);
            var z := Step(y, e);
            && z.log == y.log && z.net == y.net && z.reader == y.reader && !z.sink.streamClosed
            && z.sink.next <= |z.log|
            && z.sink.next == (if e.SendReturns? && !e.failed then y.writers[0].pkt.End() else y.sink.next)
            && z.writers == (if z.sink.next < |z.log| || z.sink.draining then [Sending(Everything(z), false)] else [])
  {
    var y := Run(Start(closeOnFailure), es);
    RunKeepsInv(Start(closeOnFailure), es);
    RunAttended(closeOnFailure, es);
    var z := Step(y, e);
    StepKeepsInv(y, e);
    StreamClosesIff(closeOnFailure, es, e);
    if e.SendReturns? {
      assert WriterInv(y.writers[0], y.sink, y.log);
      AfterSendKeepsInv(y.sink, y.writers[0].pkt, e.failed, e.expired, y.log);
    }
    assert z.sink.queue == z.log[z.sink.next..];
    assert z.writers == if z.sink.queue != [] || z.sink.draining then [Sending(Packet(z.sink.next, z.sink.queue, z.sink.draining), false)] else [];
  }

  /** A send that fails past the deadline drops all that is unacknowledged, and one that took the
      close flag acknowledges all; either ends the writer. */
  lemma {:induction false} WriterEnds(closeOnFailure: bool, es: seq<Event>, failed: bool, expired: bool)
    requires var y := Run(Start(closeOnFailure), es);
             |y.writers| == 1 && y.writers[0].Sending? && if failed then expired else y.writers[0].pkt.close
    ensures var y := Run(Start(closeOnFailure), es);
            var z := Step(y, SendReturns(0, failed, expired));
            && z.log == y.log && z.net == y.net && z.reader == y.reader
            && z.sink.next == |z.log| && z.sink.queue == [] && z.writers == []
  {
    var y := Run(Start(closeOnFailure), es);
    RunKeepsInv(Start(closeOnFailure), es);
    assert WriterInv(y.writers[0], y.sink, y.log);
    AfterSendKeepsInv(y.sink, y.writers[0].pkt, failed, expired, y.log);
  }

  // ------------------------------------------------------------- delivery

  function Max(a: nat, b: nat): nat { if a < b then b else a }

  /** A packet within the reader's reach advances it to the packet's end; what it has not seen
      goes out as far as the channel takes it, and the close flag ends it once all is out. */
  ghost predicate Delivers(r: Reader, q: Reader, pkt: Packet, room: nat, log: seq<Message>) {
    var start, end := |r.delivered|, pkt.End();
    && start <= |log| && end <= |log|
    && q.delivered == log[..Min(start + room, Max(start, end))]
    && (q.status.ChannelRefused? <==> start + room < end)
    && (q.status.EndedByClose? <==> pkt.close && end <= start + room)
    && (q.status.Running? <==> !pkt.close && end <= start + room)
  }

  lemma ReceiveDelivers(r: Reader, pkt: Packet, room: nat, log: seq<Message>, draining: bool)
    requires r.status.Running? && ReaderInv(r, log, draining) && Faithful(pkt, log, draining) && pkt.base <= |r.delivered|
    ensures Delivers(r, Receive(r, pkt, true, room), pkt, room, log)
  {
    var start, end := |r.delivered|, pkt.End();
    var unseen := pkt.msgs[Min(start - pkt.base, |pkt.msgs|)..];
    UnseenIsNext(start, pkt, log, draining);
    var taken := Min(room, |unseen|);
    TakenIsPrefix(log, start, start + |unseen|, taken);
  }

  lemma TakenIsPrefix(log: seq<Message>, start: nat, end: nat, taken: nat)
    requires start <= end <= |log| && taken <= end - start
    ensures log[..start + taken] == log[..start] + log[start..end][..taken]
  {
  }

  lemma UnseenIsNext(start: nat, pkt: Packet, log: seq<Message>, draining: bool)
    requires pkt.base <= start <= |log| && Faithful(pkt, log, draining)
    ensures var unseen := pkt.msgs[Min(start - pkt.base, |pkt.msgs|)..];
            start + |unseen| == Max(start, pkt.End()) && unseen == log[start..start + |unseen|]
  {
  }

  lemma {:induction false} HandDelivers(closeOnFailure: bool, es: seq<Event>, k: nat, room: nat)
    requires var y := Run(Start(closeOnFailure), es);
             k < |y.net| && y.reader.status.Running? && y.net[k].base <= |y.reader.delivered|
    ensures var y := Run(Start(closeOnFailure), es);
            Delivers(y.reader, Step(y, Hand(k, true, room)).reader, y.net[k], room, y.log)
  {
    var y := Run(Start(closeOnFailure), es);
    RunKeepsInv(Start(closeOnFailure), es);
    ReceiveDelivers(y.reader, y.net[k], room, y.log, y.sink.draining);
  }

  /** A packet that does not decode ends the reader, and nothing of it goes out. */
  lemma UndecodableEnds(y: System, k: nat, room: nat)
    requires k < |y.net| && y.reader.status.Running?
    ensures var r := Step(y, Hand(k, false, room)).reader;
            r.status.Undecodable? && r.delivered == y.reader.delivered
  {
  }

  lemma RunExtends(y: System, es: seq<Event>, e: Event)
    ensures Run(y, es + [e]) == Step(Run(y, es), e)
  {
    assert (es + [e])[..|es|] == es;
  }

  /** The schedule that delivers all: the writer sends what is unacknowledged, at its start or after
      a failed send, the packet arrives and is handed over, and the send succeeds. */
  function Delivering(y: System): seq<Event> {
    [] + [if y.writers != [] && y.writers[0].Spawned? then WriterStarts(0) else SendReturns(0, true, false)]
    + [Arrive(0)] + [Hand(|y.net|, true, |y.log|)] + [SendReturns(0, false, false)]
  }

  /** The first step of it. */
  lemma {:induction false} Sends(closeOnFailure: bool, es: seq<Event>)
    requires var y := Run(Start(closeOnFailure), es);
             !y.sink.streamClosed && (y.sink.queue != [] || y.sink.draining)
    ensures var y := Run(Start(closeOnFailure), es);
            var z := Step(y, Delivering(y)[0]);
            && z.log == y.log && z.net == y.net && z.reader == y.reader && !z.sink.streamClosed
            && z.sink == y.sink && z.sink.next <= |z.log|
            && z.writers == [Sending(Everything(z), false)]
  {
    var y := Run(Start(closeOnFailure), es);
    NothingUnattended(closeOnFailure, es);
    RunKeepsInv(Start(closeOnFailure), es);
    WriterGoesOn(closeOnFailure, es, Delivering(y)[0]);
  }

  /** The next two: the packet arrives and is handed over. */
  lemma {:induction false} ArrivesAndIsHanded(closeOnFailure: bool, es: seq<Event>)
    requires var y := Run(Start(closeOnFailure), es);
             && y.sink.next <= |y.log| && y.writers == [Sending(Everything(y), false)]
             && y.reader.status.Running? && y.sink.next <= |y.reader.delivered|
    ensures var y := Run(Start(closeOnFailure), es);
            var z := Step(Step(y, Arrive(0)), Hand(|y.net|, true, |y.log|));
            && z.log == y.log && z.sink == y.sink && z.writers == [Sending(Everything(y), true)]
            && z.reader.delivered == y.log && z.reader.status == (if y.sink.draining then EndedByClose else Running)
  {
    var y := Run(Start(closeOnFailure), es);
    var arrived := Step(y, Arrive(0));
    RunExtends(Start(closeOnFailure), es, Arrive(0));
    assert arrived.net[|y.net|] == Everything(y) && arrived.reader == y.reader && arrived.log == y.log;
    HandDelivers(closeOnFailure, es + [Arrive(0)], |y.net|, |y.log|);
    var q := Step(arrived, Hand(|y.net|, true, |y.log|)).reader;
    assert Everything(y).End() == |y.log| && y.log[..|y.log|] == y.log;
    assert Delivers(y.reader, q, Everything(y), |y.log|, y.log);
    RunKeepsInv(Start(closeOnFailure), es);
  }

  /** The last: the send succeeds. */
  lemma {:induction false} SendSucceeds(closeOnFailure: bool, es: seq<Event>)
    requires var y := Run(Start(closeOnFailure), es);
             !y.sink.streamClosed && y.sink.next <= |y.log| && y.writers == [Sending(Everything(y), true)]
    ensures var y := Run(Start(closeOnFailure), es);
            var z := Step(y, SendReturns(0, false, false));
            && z.log == y.log && z.reader == y.reader && z.sink.queue == [] && z.writers == []
            && (z.sink.streamClosed <==> y.sink.draining)
  {
    var y := Run(Start(closeOnFailure), es);
    RunKeepsInv(Start(closeOnFailure), es);
    assert y.sink.queue == y.log[y.sink.next..];
    StreamClosesIff(closeOnFailure, es, SendReturns(0, false, false));
  }

  /** From every reachable state with an open stream and a reader that is running and not behind the
      acknowledged messages, that schedule delivers all that was accepted; nothing is left to send,
      and a draining sink has ended the reader. */
  lemma {:induction false} CanDeliverAll(closeOnFailure: bool, es: seq<Event>)
    requires var y := Run(Start(closeOnFailure), es);
             && !y.sink.streamClosed && (y.sink.queue != [] || y.sink.draining)
             && y.reader.status.Running? && y.sink.next <= |y.reader.delivered|
    ensures var y := Run(Start(closeOnFailure), es);
            var z := Run(Start(closeOnFailure), es + Delivering(y));
            && z.log == y.log && z.reader.delivered == y.log
            && z.sink.queue == [] && z.writers == []
            && z.reader.status == (if y.sink.draining then EndedByClose else Running)
            && (z.sink.streamClosed <==> y.sink.draining)
  {
    var start, y := Start(closeOnFailure), Run(Start(closeOnFailure), es);
    var e0, e1, e2, e3 := Delivering(y)[0], Arrive(0), Hand(|y.net|, true, |y.log|), SendReturns(0, false, false);
    Sends(closeOnFailure, es);
    RunExtends(start, es, e0);
    var es1 := es + [e0];
    ArrivesAndIsHanded(closeOnFailure, es1);
    RunExtends(start, es1, e1);
    RunExtends(start, es1 + [e1], e2);
    var es3 := es1 + [e1] + [e2];
    SendSucceeds(closeOnFailure, es3);
    RunExtends(start, es3, e3);
    assert es + Delivering(y) == es3 + [e3];
  }
}
