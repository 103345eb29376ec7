/**
 The objects of pkg/routing/signal.go and pkg/routing/messagechannel.go, each method
 tied to the step function of SignalRelay that its mutex-protected region performs.
 */
module SignalEndpoints {
  import opened SignalRelay
  import opened Wrappers

  /** signalMessageSink.  `Send` itself is not here: it happens between `TakeBatch` and
      `SendReturned`, with the mutex released. */
  class SignalMessageSink {
    var next: nat
    var queue: seq<Message>
    var writing: bool
    var draining: bool
    var streamClosed: bool
    const closeOnFailure: bool

    constructor (closeOnFailure: bool)
      ensures State() == EmptySink.(closeOnFailure := closeOnFailure)
    {
      next, queue, writing, draining, streamClosed := 0, [], false, false, false;
      this.closeOnFailure := closeOnFailure;
    }

    ghost function State(): Sink
      reads this
    {
      Sink(next, queue, writing, draining, streamClosed, closeOnFailure)
    }

    /** `spawn` says that the caller starts a writer goroutine. */
    method WriteMessage(m: Message) returns (res: WriteResult, spawn: bool)
      modifies this
      ensures (State(), res, spawn) == SignalRelay.WriteMessage(old(State()), m)
    {
      spawn := false;
      if streamClosed {
        return RefusedStreamClosed, false;
      } else if draining {
        return RefusedStreamClosed, false;
      }
      queue := queue + [m];
      if !writing {
        writing := true;
        spawn := true;
      }
      res := Accepted;
    }

    method Close() returns (spawn: bool)
      modifies this
      ensures (State(), spawn) == CloseSink(old(State()))
    {
      draining := true;
      spawn := !writing;
      if !writing {
        writing := true;
      }
    }

    method Finish(failed: bool)
      modifies this
      ensures State() == SignalRelay.Finish(old(State()), failed)
    {
      writing := false;
      if draining {
        streamClosed := true;
      }
      if failed && closeOnFailure {
        streamClosed := true;
      }
    }

    /** The writer's loop head: the packet to send, or the end of the goroutine. */
    method TakeBatch(failed: bool) returns (batch: Option<Packet>)
      modifies this
      ensures var (s, w) := LoopHead(old(State()), failed);
              State() == s && batch == if w.Some? then Some(w.value.pkt) else None
    {
      var close := draining;
      if (!close && |queue| == 0) || streamClosed {
        Finish(failed);
        return None;
      }
      batch := Some(Packet(next, queue, close));
    }

    /** `Send` of `sent` has returned: account for it and go round the loop. */
    method SendReturned(sent: Packet, failed: bool, expired: bool) returns (batch: Option<Packet>)
      requires |sent.msgs| <= |queue|
      modifies this
      ensures var (s, w) := AfterSend(old(State()), sent, failed, expired);
              State() == s && batch == if w.Some? then Some(w.value.pkt) else None
    {
      if failed && expired {
        next := next + |queue|;
        queue := [];
        Finish(true);
        return None;
      }
      if !failed {
        next := next + |sent.msgs|;
        queue := queue[|sent.msgs|..];
        if sent.close {
          Finish(false);
          return None;
        }
      }
      batch := TakeBatch(failed);
    }
  }

  /** MessageChannel: a bounded buffer that refuses when full or closed.  `written` is everything
      it took, `read` the part of that its consumer has taken out again. */
  class MessageChannel {
    var buffer: seq<Message>
    var isClosed: bool
    const size: nat
    ghost var written: seq<Message>
    ghost var read: seq<Message>

    ghost predicate Valid()
      reads this
    {
      written == read + buffer && |buffer| <= size
    }

    constructor (size: nat)
      ensures Valid() && written == [] && !isClosed && this.size == size
    {
      buffer, isClosed, written, read := [], false, [], [];
      this.size := size;
    }

    method WriteMessage(m: Message) returns (ok: bool)
      requires Valid()
      modifies this
      ensures Valid() && isClosed == old(isClosed) && read == old(read)
      ensures ok <==> !old(isClosed) && |old(buffer)| < size
      ensures written == if ok then old(written) + [m] else old(written)
    {
      if isClosed {
        return false;
      }
      if |buffer| >= size {
        return false;
      }
      buffer := buffer + [m];
      written := written + [m];
      ok := true;
    }

    /** The consumer of ReadChan takes the oldest message. */
    method Receive() returns (m: Message)
      requires Valid() && buffer != []
      modifies this
      ensures Valid() && read == old(read) + [m] && written == old(written) && isClosed == old(isClosed)
    {
      m := buffer[0];
      read := read + [m];
      buffer := buffer[1..];
    }

    method Close()
      requires Valid()
      modifies this
      ensures Valid() && isClosed && buffer == old(buffer) && written == old(written) && read == old(read)
    {
      isClosed := true;
    }
  }

  /** What others do to the channel before a write: the consumer reads, or somebody closes it. */
  datatype Interference = Interference(receives: nat, closes: bool)

  method Interfere(ch: MessageChannel, act: Interference)
    requires ch.Valid()
    modifies ch
    ensures ch.Valid() && ch.written == old(ch.written)
  {
    var i := 0;
    while i < act.receives && |ch.buffer| > 0
      invariant ch.Valid() && ch.written == old(ch.written)
    {
      var _ := ch.Receive();
      i := i + 1;
    }
    if act.closes {
      ch.Close();
    }
  }

  class SignalMessageReader {
    var next: nat

    constructor ()
      ensures next == 0
    {
      next := 0;
    }

    /** None stands for ErrSignalMessageDropped. */
    method Read(pkt: Packet) returns (res: Option<seq<Message>>)
      modifies this
      ensures res == SignalRelay.Read(old(next), pkt)
      ensures next == old(next) + if res.Some? then |res.value| else 0
    {
      var msgs := pkt.msgs;
      if next < pkt.base {
        return None;
      }
      if next > pkt.base {
        var n := next - pkt.base;
        if n > |msgs| {
          n := |msgs|;
        }
        msgs := msgs[n..];
      }
      next := next + |msgs|;
      res := Some(msgs);
    }
  }

  datatype Incoming = Incoming(pkt: Packet, decodes: bool)

  /** The packets of `stream` one after the other, until one of them ends the reader; the channel
      takes `rooms[k]` messages of the k-th before it refuses one. */
  function ReceiveAll(r: Reader, stream: seq<Incoming>, rooms: seq<nat>): (q: Reader)
    requires |stream| <= |rooms|
    ensures r.delivered <= q.delivered
    decreases |stream|
  {
    if stream == [] || !r.status.Running? then r
    else ReceiveAll(Receive(r, stream[0].pkt, stream[0].decodes, rooms[0]), stream[1..], rooms[1..])
  }

  ghost predicate AllFaithful(stream: seq<Incoming>, log: seq<Message>, draining: bool) {
    forall e :: e in stream ==> Faithful(e.pkt, log, draining)
  }

  /** Whatever faithful packets a reader is given, in whatever order, and whatever the channel
      takes of them, it hands over a prefix of the log, and all of the log if it ends by the
      close flag. */
  lemma {:induction false} ReceiveAllFollowsLog(r: Reader, stream: seq<Incoming>, rooms: seq<nat>, log: seq<Message>, draining: bool)
    requires |stream| <= |rooms|
    requires ReaderInv(r, log, draining)
    requires AllFaithful(stream, log, draining)
    ensures var q := ReceiveAll(r, stream, rooms);
            q.delivered <= log && (q.status.EndedByClose? ==> q.delivered == log)
    decreases |stream|
  {
    if stream != [] && r.status.Running? {
      ReceiveAllFollowsLog(Receive(r, stream[0].pkt, stream[0].decodes, rooms[0]), stream[1..], rooms[1..], log, draining);
    }
  }

  /** One packet more. */
  lemma {:induction false} ReceiveAllAppend(r: Reader, stream: seq<Incoming>, rooms: seq<nat>, e: Incoming, room: nat)
    requires |stream| == |rooms|
    ensures var q := ReceiveAll(r, stream, rooms);
            ReceiveAll(r, stream + [e], rooms + [room]) == if q.status.Running? then Receive(q, e.pkt, e.decodes, room) else q
    decreases |stream|
  {
    if stream == [] {
      assert stream + [e] == [e] && rooms + [room] == [room];
    } else if r.status.Running? {
      ReceiveAllAppend(Receive(r, stream[0].pkt, stream[0].decodes, rooms[0]), stream[1..], rooms[1..], e, room);
      assert (stream + [e])[1..] == stream[1..] + [e] && (rooms + [room])[1..] == rooms[1..] + [room];
    }
  }

  /** Hand messages to the channel until it refuses one; `others(k)` happens before the k-th write. */
  method WriteMessages(msgs: seq<Message>, ch: MessageChannel, others: nat -> Interference, from: nat) returns (taken: nat)
    requires ch.Valid()
    modifies ch
    ensures ch.Valid() && taken <= |msgs| && ch.written == old(ch.written) + msgs[..taken]
    ensures taken < |msgs| ==> ch.isClosed || |ch.buffer| == ch.size
  {
    taken := 0;
    while taken < |msgs|
      invariant ch.Valid() && taken <= |msgs| && ch.written == old(ch.written) + msgs[..taken]
    {
      Interfere(ch, others(from + taken));
      var ok := ch.WriteMessage(msgs[taken]);
      if !ok {
        return;
      }
      assert msgs[..taken + 1] == msgs[..taken] + [msgs[taken]];
      taken := taken + 1;
    }
  }

  /** Reading these packets yields this status and what was written. */
  ghost predicate Copied(stream: seq<Incoming>, rooms: seq<nat>, status: Status, written: seq<Message>) {
    && |rooms| == |stream|
    && var q := ReceiveAll(Reader(0, [], Running), stream, rooms); status == q.status && written == q.delivered
  }

  /** The reader after these packets; it has read on from there. */
  ghost predicate Reading(stream: seq<Incoming>, rooms: seq<nat>, next: nat, written: seq<Message>) {
    && |rooms| == |stream|
    && var q := ReceiveAll(Reader(0, [], Running), stream, rooms);
       q.status.Running? && q.next == next && q.delivered == written
  }

  /** One packet more, of which the channel takes `room` messages. */
  lemma CopyNext(stream: seq<Incoming>, rooms: seq<nat>, next: nat, written: seq<Message>, e: Incoming, room: nat)
    requires Reading(stream, rooms, next, written)
    ensures var q := Receive(Reader(next, written, Running), e.pkt, e.decodes, room);
            && Copied(stream + [e], rooms + [room], q.status, q.delivered)
            && (q.status.Running? ==> Reading(stream + [e], rooms + [room], q.next, q.delivered))
  {
    ReceiveAllAppend(Reader(0, [], Running), stream, rooms, e, room);
  }

  /** CopySignalStreamToMessageChannel on the packets that the stream hands over before it ends,
      while others read from the channel and may close it: what it writes is what reading the
      packets yields, up to the first `seen` of them, one of which ended the reader unless that
      is all; a refusal is by a full or closed channel. */
  method CopySignalStreamToMessageChannel(stream: seq<Incoming>, ch: MessageChannel, others: nat -> Interference)
    returns (status: Status, ghost rooms: seq<nat>, ghost seen: nat)
    requires ch.Valid() && ch.written == []
    modifies ch
    ensures ch.Valid() && seen <= |stream| && (status.Running? ==> seen == |stream|)
    ensures Copied(stream[..seen], rooms, status, ch.written)
    ensures status.ChannelRefused? ==> ch.isClosed || |ch.buffer| == ch.size
  {
    var r := new SignalMessageReader();
    rooms, seen, status := [], 0, Running;
    var count: nat := 0;
    for i := 0 to |stream|
      invariant ch.Valid() && seen == i
      invariant Reading(stream[..i], rooms, r.next, ch.written)
    {
      ghost var front, next, written := stream[..i], r.next, ch.written;
      assert stream[..i + 1] == front + [stream[i]];
      seen := i + 1;
      if !stream[i].decodes {
        CopyNext(front, rooms, next, written, stream[i], 0);
        return Undecodable, rooms + [0], seen;
      }
      var res := r.Read(stream[i].pkt);
      if res.None? {
        CopyNext(front, rooms, next, written, stream[i], 0);
        return Dropped, rooms + [0], seen;
      }
      var taken := WriteMessages(res.value, ch, others, count);
      count := count + taken;
      CopyNext(front, rooms, next, written, stream[i], taken);
      rooms := rooms + [taken];
      if taken < |res.value| {
        return ChannelRefused, rooms, seen;
      }
      if stream[i].pkt.close {
        return EndedByClose, rooms, seen;
      }
    }
    assert stream[..|stream|] == stream;
  }
}
