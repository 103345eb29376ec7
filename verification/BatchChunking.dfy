/**
 Splitting a batch of messages by size (pkg/rtc/utils.go) and broadcasting participant
 updates in such chunks (pkg/rtc/room.go), which some clients want only in part.

 A chunk is closed when the next message would take it over the target, so a message above
 the target is a chunk of its own, and no chunk could have taken the first message of the
 next.
 */
module BatchChunking {
  import opened ParticipantUpdates

  function Size<T>(s: seq<T>, size: T -> nat): nat {
    if s == [] then 0 else Size(s[..|s| - 1], size) + size(s[|s| - 1])
  }

  function Flatten<T>(chunks: seq<seq<T>>): seq<T> {
    if chunks == [] then [] else Flatten(chunks[..|chunks| - 1]) + chunks[|chunks| - 1]
  }

  /** A chunk fits the target, or is a single message that does not. */
  ghost predicate Fits<T>(chunk: seq<T>, target: int, size: T -> nat) {
    chunk != [] && (Size(chunk, size) <= target || |chunk| == 1)
  }

  /** The first message of the next chunk would not have fitted any more. */
  ghost predicate Full<T>(chunk: seq<T>, next: seq<T>, target: int, size: T -> nat) {
    next != [] && Size(chunk, size) + size(next[0]) > target
  }

  ghost predicate Chunked<T>(chunks: seq<seq<T>>, target: int, size: T -> nat) {
    && (forall i :: 0 <= i < |chunks| ==> Fits(chunks[i], target, size))
    && (forall i, j :: 0 <= i < j < |chunks| && j == i + 1 ==> Full(chunks[i], chunks[j], target, size))
  }

  lemma FlattenAppend<T>(chunks: seq<seq<T>>, chunk: seq<T>)
    ensures Flatten(chunks + [chunk]) == Flatten(chunks) + chunk
  {
    assert (chunks + [chunk])[..|chunks|] == chunks;
  }

  lemma SizeAppend<T>(s: seq<T>, m: T, size: T -> nat)
    ensures Size(s + [m], size) == Size(s, size) + size(m)
  {
    assert (s + [m])[..|s|] == s;
  }

  lemma AppendChunk<T>(chunks: seq<seq<T>>, chunk: seq<T>, target: int, size: T -> nat)
    requires Chunked(chunks, target, size) && Fits(chunk, target, size)
    requires chunks != [] ==> Full(chunks[|chunks| - 1], chunk, target, size)
    ensures Chunked(chunks + [chunk], target, size)
  {
    var all := chunks + [chunk];
    forall i, j | 0 <= i < j < |all| && j == i + 1 ensures Full(all[i], all[j], target, size) {
      if j < |chunks| { assert Full(chunks[i], chunks[j], target, size); }
    }
    forall i | 0 <= i < |all| ensures Fits(all[i], target, size) {
      if i < |chunks| { assert Fits(chunks[i], target, size); }
    }
  }

  /** The size of the messages from `lo` up to `hi`. */
  function SizeIn<T>(batch: seq<T>, lo: nat, hi: nat, size: T -> nat): nat
    requires lo <= hi <= |batch|
  {
    if lo == hi then 0 else SizeIn(batch, lo, hi - 1, size) + size(batch[hi - 1])
  }

  lemma {:induction false} SizeOfSlice<T>(batch: seq<T>, lo: nat, hi: nat, size: T -> nat)
    requires lo <= hi <= |batch|
    ensures Size(batch[lo..hi], size) == SizeIn(batch, lo, hi, size)
  {
    if lo < hi {
      SizeOfSlice(batch, lo, hi - 1, size);
      assert batch[lo..hi] == batch[lo..hi - 1] + [batch[hi - 1]];
      SizeAppend(batch[lo..hi - 1], batch[hi - 1], size);
    }
  }

  /** With `i` messages seen, those from `start` form the open chunk. */
  ghost predicate Open<T>(chunks: seq<seq<T>>, batch: seq<T>, start: int, i: int, total: int, target: int, size: T -> nat) {
    && 0 <= start <= i <= |batch| && (start == i ==> i == 0 && chunks == [])
    && total == SizeIn(batch, start, i, size)
    && Flatten(chunks) == batch[..start] && Chunked(chunks, target, size)
    && (start < i ==> total <= target || i == start + 1)
    && (chunks != [] ==> Size(chunks[|chunks| - 1], size) + size(batch[start]) > target)
  }

  /** The open chunk can be closed. */
  lemma CloseChunk<T>(chunks: seq<seq<T>>, batch: seq<T>, start: int, i: int, total: int, target: int, size: T -> nat)
    requires Open(chunks, batch, start, i, total, target, size) && start < i
    ensures Flatten(chunks + [batch[start..i]]) == batch[..i]
    ensures Chunked(chunks + [batch[start..i]], target, size)
    ensures Size(batch[start..i], size) == total
  {
    SizeOfSlice(batch, start, i, size);
    AppendChunk(chunks, batch[start..i], target, size);
    FlattenAppend(chunks, batch[start..i]);
    assert batch[..i] == batch[..start] + batch[start..i];
  }

  method ChunkProtoBatch<T>(batch: seq<T>, target: int, size: T -> nat) returns (chunks: seq<seq<T>>)
    ensures Flatten(chunks) == batch
    ensures Chunked(chunks, target, size)
  {
    chunks := [];
    var start, total := 0, 0;
    for i := 0 to |batch|
      invariant Open(chunks, batch, start, i, total, target, size)
    {
      var s := size(batch[i]);
      if total + s > target {
        if start < i {
          CloseChunk(chunks, batch, start, i, total, target, size);
          chunks := chunks + [batch[start..i]];
        }
        start, total := i, 0;
      }
      total := total + s;
    }
    assert batch[..|batch|] == batch;
    if start < |batch| {
      CloseChunk(chunks, batch, start, |batch|, total, target, size);
      assert batch[start..|batch|] == batch[start..];
      chunks := chunks + [batch[start..]];
    }
  }

  // ------------------------------------------------------------ uniqueness

  lemma {:induction false} FlattenHead<T>(chunks: seq<seq<T>>)
    requires chunks != []
    ensures Flatten(chunks) == chunks[0] + Flatten(chunks[1..])
  {
    if |chunks| == 1 {
      assert chunks[..0] == [] && chunks[1..] == [];
    } else {
      var front, rest, last := chunks[..|chunks| - 1], chunks[1..], chunks[|chunks| - 1];
      FlattenHead(front);
      assert front[1..] == rest[..|rest| - 1] && rest[|rest| - 1] == last;
      assert chunks[0] + Flatten(front[1..]) + last == chunks[0] + (Flatten(front[1..]) + last);
    }
  }

  lemma {:induction false} SizeOfPrefix<T>(s: seq<T>, n: nat, size: T -> nat)
    requires n <= |s|
    ensures Size(s[..n], size) <= Size(s, size)
  {
    if n < |s| {
      SizeOfPrefix(s[..|s| - 1], n, size);
      assert s[..|s| - 1][..n] == s[..n];
    } else {
      assert s[..n] == s;
    }
  }

  lemma ChunkedTail<T>(chunks: seq<seq<T>>, target: int, size: T -> nat)
    requires Chunked(chunks, target, size) && chunks != []
    ensures Chunked(chunks[1..], target, size)
  {
    var rest := chunks[1..];
    forall i, j | 0 <= i < j < |rest| && j == i + 1 ensures Full(rest[i], rest[j], target, size) {
      assert Full(chunks[i + 1], chunks[j + 1], target, size);
    }
    forall i | 0 <= i < |rest| ensures Fits(rest[i], target, size) {
      assert Fits(chunks[i + 1], target, size);
    }
  }

  lemma NextMessage<T>(a: seq<seq<T>>, target: int, size: T -> nat)
    requires Chunked(a, target, size) && a != [] && |Flatten(a)| > |a[0]|
    ensures Flatten(a)[..|a[0]|] == a[0]
    ensures Size(a[0], size) + size(Flatten(a)[|a[0]|]) > target
  {
    FlattenHead(a);
    FlattenHead(a[1..]);
    assert Full(a[0], a[1], target, size);
    assert a[1][0] == Flatten(a[1..])[0] == Flatten(a)[|a[0]|];
  }

  lemma PrefixLeavesRoom<T>(chunk: seq<T>, n: nat, target: int, size: T -> nat)
    requires Fits(chunk, target, size) && 0 < n < |chunk|
    ensures Size(chunk[..n], size) + size(chunk[n]) <= target
  {
    assert chunk[..n + 1] == chunk[..n] + [chunk[n]];
    SizeAppend(chunk[..n], chunk[n], size);
    SizeOfPrefix(chunk, n + 1, size);
  }

  /** A first chunk that stops short of another could have taken one more message. */
  lemma FirstIsNotShorter<T>(a: seq<seq<T>>, b: seq<seq<T>>, target: int, size: T -> nat)
    requires Chunked(a, target, size) && Chunked(b, target, size)
    requires a != [] && b != [] && Flatten(a) == Flatten(b)
    ensures |a[0]| >= |b[0]|
  {
    FlattenHead(b);
    assert Fits(a[0], target, size) && Fits(b[0], target, size);
    var n := |a[0]|;
    if n < |b[0]| {
      NextMessage(a, target, size);
      assert b[0][..n] == Flatten(a)[..n] && b[0][n] == Flatten(a)[n];
      PrefixLeavesRoom(b[0], n, target, size);
      assert false;
    }
  }

  /** The stated properties leave no choice: there is one such chunking of a batch. */
  lemma {:induction false} ChunkingIsUnique<T>(a: seq<seq<T>>, b: seq<seq<T>>, target: int, size: T -> nat)
    requires Chunked(a, target, size) && Chunked(b, target, size) && Flatten(a) == Flatten(b)
    ensures a == b
  {
    if a != [] { FlattenHead(a); assert Fits(a[0], target, size); }
    if b != [] { FlattenHead(b); assert Fits(b[0], target, size); }
    if a != [] && b != [] {
      FirstIsNotShorter(a, b, target, size);
      FirstIsNotShorter(b, a, target, size);
      assert a[0] == Flatten(a)[..|a[0]|] && b[0] == Flatten(b)[..|b[0]|];
      assert Flatten(a[1..]) == Flatten(a)[|a[0]|..] && Flatten(b[1..]) == Flatten(b)[|b[0]|..];
      ChunkedTail(a, target, size);
      ChunkedTail(b, target, size);
      ChunkingIsUnique(a[1..], b[1..], target, size);
      assert a == [a[0]] + a[1..] && b == [b[0]] + b[1..];
    }
  }

  // ------------------------------------------------------------- broadcast

  /** ParticipantCloseReasonDuplicateIdentity */
  const DUPLICATE_IDENTITY := 8

  predicate Skipped(u: Update) { u.synthesized || u.closeReason == DUPLICATE_IDENTITY }

  /** What a client gets: clients that reconnect by identity are spared the skipped updates. */
  function Wanted(updates: seq<Update>, byIdentity: bool): seq<Info> {
    if updates == [] then []
    else
      var rest, last := Wanted(updates[..|updates| - 1], byIdentity), updates[|updates| - 1];
      if byIdentity && Skipped(last) then rest else rest + [last.info]
  }

  lemma {:induction false} FlattenPrefix<T>(chunks: seq<seq<T>>, n: nat)
    requires n <= |chunks|
    ensures Flatten(chunks[..n]) <= Flatten(chunks)
  {
    if n < |chunks| {
      FlattenPrefix(chunks[..|chunks| - 1], n);
      assert chunks[..|chunks| - 1][..n] == chunks[..n];
    } else {
      assert chunks[..n] == chunks;
    }
  }

  /** A participant updates are sent to: its protocol, and which of its sends fail. */
  datatype Receiver = Receiver(byIdentity: bool, fails: nat -> bool)

  /** The chunks sent to one participant; sending stops at the first error. */
  method SendChunks(chunks: seq<seq<Info>>, to: Receiver) returns (sent: seq<seq<Info>>)
    ensures sent <= chunks
    ensures forall i :: 0 <= i < |sent| ==> !to.fails(i)
    ensures |sent| < |chunks| ==> to.fails(|sent|)
  {
    sent := [];
    for i := 0 to |chunks|
      invariant sent == chunks[..i] && forall k :: 0 <= k < i ==> !to.fails(k)
    {
      if to.fails(i) {
        return;
      }
      sent := sent + [chunks[i]];
    }
  }

  /** In order, in chunks that fit, what the participant wants, all of it unless a send fails. */
  ghost predicate Served(sent: seq<seq<Info>>, wanted: seq<Info>, to: Receiver, target: int, size: Info -> nat) {
    && Flatten(sent) <= wanted
    && (forall i :: 0 <= i < |sent| ==> Fits(sent[i], target, size) && !to.fails(i))
    && (Flatten(sent) == wanted || to.fails(|sent|))
  }

  lemma SentIsServed(sent: seq<seq<Info>>, chunks: seq<seq<Info>>, to: Receiver, target: int, size: Info -> nat)
    requires Chunked(chunks, target, size)
    requires sent <= chunks && (forall i :: 0 <= i < |sent| ==> !to.fails(i)) && (|sent| < |chunks| ==> to.fails(|sent|))
    ensures Served(sent, Flatten(chunks), to, target, size)
  {
    FlattenPrefix(chunks, |sent|);
    assert sent == chunks[..|sent|];
    assert |sent| == |chunks| ==> sent == chunks;
    forall i | 0 <= i < |sent| ensures Fits(sent[i], target, size) { assert Fits(chunks[i], target, size); }
  }

  ghost predicate AllServed(sent: seq<seq<seq<Info>>>, updates: seq<Update>, participants: seq<Receiver>,
                            target: int, size: Info -> nat) {
    |sent| <= |participants| && forall p :: 0 <= p < |sent| ==>
      Served(sent[p], Wanted(updates, participants[p].byIdentity), participants[p], target, size)
  }

  lemma OneMoreServed(sent: seq<seq<seq<Info>>>, part: seq<seq<Info>>, updates: seq<Update>, participants: seq<Receiver>,
                      target: int, size: Info -> nat)
    requires AllServed(sent, updates, participants, target, size) && |sent| < |participants|
    requires var to := participants[|sent|]; Served(part, Wanted(updates, to.byIdentity), to, target, size)
    ensures AllServed(sent + [part], updates, participants, target, size)
  {
    forall p | 0 <= p <= |sent|
      ensures Served((sent + [part])[p], Wanted(updates, participants[p].byIdentity), participants[p], target, size)
    {
      if p < |sent| {
        assert Served(sent[p], Wanted(updates, participants[p].byIdentity), participants[p], target, size);
      }
    }
  }

  method SelectUpdates(updates: seq<Update>) returns (filtered: seq<Info>, full: seq<Info>)
    ensures filtered == Wanted(updates, true) && full == Wanted(updates, false)
  {
    filtered, full := [], [];
    for i := 0 to |updates|
      invariant filtered == Wanted(updates[..i], true) && full == Wanted(updates[..i], false)
    {
      assert updates[..i + 1][..i] == updates[..i];
      if !(updates[i].synthesized || updates[i].closeReason == DUPLICATE_IDENTITY) {
        filtered := filtered + [updates[i].info];
      }
      full := full + [updates[i].info];
    }
    assert updates[..|updates|] == updates;
  }

  method SendParticipantUpdates(updates: seq<Update>, participants: seq<Receiver>, target: int, size: Info -> nat)
    returns (sent: seq<seq<seq<Info>>>)
    ensures |sent| == |participants| && AllServed(sent, updates, participants, target, size)
  {
    var filtered, full := SelectUpdates(updates);
    var filteredChunks := ChunkProtoBatch(filtered, target, size);
    var fullChunks := ChunkProtoBatch(full, target, size);
    sent := [];
    for p := 0 to |participants|
      invariant |sent| == p && AllServed(sent, updates, participants, target, size)
    {
      var chunks := if participants[p].byIdentity then filteredChunks else fullChunks;
      var part := SendChunks(chunks, participants[p]);
      SentIsServed(part, chunks, participants[p], target, size);
      OneMoreServed(sent, part, updates, participants, target, size);
      sent := sent + [part];
    }
  }

  /** A client that reconnects by identity misses exactly the skipped updates: what it is sent
      is what the others are sent, with the rest in the same order. */
  lemma {:induction false} WantedByIdentity(updates: seq<Update>)
    ensures Wanted(updates, true) == Wanted(KeptUpdates(updates), false)
    ensures forall u :: u in KeptUpdates(updates) <==> u in updates && !u.synthesized && u.closeReason != 8
    ensures |Wanted(updates, false)| == |updates|
    ensures forall i :: 0 <= i < |updates| ==> Wanted(updates, false)[i] == updates[i].info
  {
    if updates != [] {
      var front, last := updates[..|updates| - 1], updates[|updates| - 1];
      WantedByIdentity(front);
      var kept := KeptUpdates(front);
      assert (kept + [last])[..|kept|] == kept;
      assert forall u :: u in updates <==> u in front || u == last;
      assert forall i :: 0 <= i < |front| ==> front[i] == updates[i];
    }
  }

  function KeptUpdates(updates: seq<Update>): seq<Update> {
    if updates == [] then []
    else
      var rest, last := KeptUpdates(updates[..|updates| - 1]), updates[|updates| - 1];
      if Skipped(last) then rest else rest + [last]
  }
}
