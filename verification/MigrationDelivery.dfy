/**
 Exactly which packets a publisher's session forwards on the node it migrated to
 (pkg/rtc/participant.go, pkg/rtc/migrationdatacache.go), by the indices at which they were
 received.
 */
module MigrationDelivery {
  import opened PublisherMigration
  import opened Wrappers

  /** A packet, and whether the wait has expired when it is received. */
  datatype Packet = Packet(n: Seq, expired: bool)

  function ReceiveEach(p: Publisher, ps: seq<Packet>): Publisher {
    if ps == [] then p else OnReceived(ReceiveEach(p, ps[..|ps| - 1]), ps[|ps| - 1].n, ps[|ps| - 1].expired)
  }

  function Numbers(ps: seq<Packet>): (ns: seq<Seq>)
    ensures |ns| == |ps| && forall i :: 0 <= i < |ps| ==> ns[i] == ps[i].n
  {
    seq(|ps|, i requires 0 <= i < |ps| => ps[i].n)
  }

  /** Entry `i` is above `floor` and above every entry before it. */
  ghost predicate IsRecord(floor: Seq, ns: seq<Seq>, i: nat) {
    i < |ns| && floor < ns[i] && forall j :: 0 <= j < i ==> ns[j] < ns[i]
  }

  /** `at` are the indices of all such entries, in order. */
  ghost predicate Records(at: seq<nat>, floor: Seq, ns: seq<Seq>) {
    && (forall i: nat :: i in at <==> IsRecord(floor, ns, i))
    && (forall k, l :: 0 <= k < l < |at| ==> at[k] < at[l])
  }

  /** A session that waits for nothing and has forwarded nothing. */
  function Open(last: Seq): Publisher { Publisher(last, false, None, []) }

  /** `s` are the entries of `ns` at these indices. */
  ghost predicate Picks(s: seq<Seq>, ns: seq<Seq>, at: seq<nat>) {
    |s| == |at| && forall k :: 0 <= k < |at| ==> at[k] < |ns| && s[k] == ns[at[k]]
  }

  /** The highest of `floor` and `ns`. */
  ghost predicate IsTop(top: Seq, floor: Seq, ns: seq<Seq>) {
    floor <= top && (top == floor || top in ns) && forall n :: n in ns ==> n <= top
  }

  lemma RecordsAppend(at: seq<nat>, floor: Seq, ns: seq<Seq>, n: Seq, top: Seq)
    requires Records(at, floor, ns) && IsTop(top, floor, ns)
    ensures Records(if n > top then at + [|ns|] else at, floor, ns + [n])
    ensures IsTop(if n > top then n else top, floor, ns + [n])
  {
    var all, longer := ns + [n], if n > top then at + [|ns|] else at;
    assert forall j :: 0 <= j < |ns| ==> all[j] == ns[j];
    forall i: nat ensures i in longer <==> IsRecord(floor, all, i) {
      if i < |ns| {
        assert IsRecord(floor, all, i) <==> IsRecord(floor, ns, i);
      } else if i == |ns| {
        assert |ns| !in at;
        assert forall j :: 0 <= j < |ns| ==> all[j] in ns;
        if n <= top && top != floor {
          var j :| 0 <= j < |ns| && ns[j] == top;
          assert all[j] >= all[i];
        }
      }
    }
    assert forall k :: 0 <= k < |at| ==> at[k] in at;
  }

  /** A session that waits for nothing forwards the records above its last sequence. */
  lemma {:induction false} ForwardAllRecords(last: Seq, ns: seq<Seq>) returns (at: seq<nat>)
    ensures var q := ForwardAll(Open(last), ns);
            && Records(at, last, ns) && Picks(q.forwarded, ns, at) && IsTop(q.last, last, ns)
  {
    if ns == [] {
      at := [];
    } else {
      var front, n := ns[..|ns| - 1], ns[|ns| - 1];
      at := ForwardAllRecords(last, front);
      var p := ForwardAll(Open(last), front);
      assert ns == front + [n] && ForwardAll(Open(last), ns) == Forward(p, n);
      RecordsAppend(at, last, front, n, p.last);
      PicksAppend(p.forwarded, front, at, n);
      if n > p.last { at := at + [|front|]; }
    }
  }

  lemma PicksAppend(s: seq<Seq>, ns: seq<Seq>, at: seq<nat>, n: Seq)
    requires Picks(s, ns, at)
    ensures Picks(s + [n], ns + [n], at + [|ns|]) && Picks(s, ns + [n], at)
  {
  }

  lemma {:induction false} ReceivesAsForwards(p: Publisher, ps: seq<Packet>)
    requires p.cache.None? && !p.stopped
    ensures var q := ReceiveEach(p, ps); q == ForwardAll(p, Numbers(ps)) && q.cache.None? && !q.stopped
  {
    if ps != [] {
      ReceivesAsForwards(p, ps[..|ps| - 1]);
      assert Numbers(ps)[..|ps| - 1] == Numbers(ps[..|ps| - 1]);
    }
  }

  lemma {:induction false} ForwardAllStaysOpen(p: Publisher, ns: seq<Seq>)
    ensures ForwardAll(p, ns).cache == p.cache && ForwardAll(p, ns).stopped == p.stopped
  {
    if ns != [] { ForwardAllStaysOpen(p, ns[..|ns| - 1]); }
  }

  /** The packet ends the wait of a session migrated in with `last`. */
  predicate EndsWait(last: Seq, p: Packet) { last < p.n && (p.n == last + 1 || p.expired) }

  function Above(floor: Seq, ns: seq<Seq>): seq<Seq> {
    if ns == [] then []
    else
      var rest, n := Above(floor, ns[..|ns| - 1]), ns[|ns| - 1];
      if n > floor then rest + [n] else rest
  }

  /** Until then nothing is forwarded, and what is above the last sequence is held back. */
  lemma {:induction false} HeldUntilWaitEnds(last: Seq, ps: seq<Packet>)
    requires 0 < last && forall p :: p in ps ==> !EndsWait(last, p)
    ensures ReceiveEach(MigratedIn(last), ps) == Publisher(last, false, Some(Cache(last, Above(last, Numbers(ps)), Waiting)), [])
  {
    if ps != [] {
      HeldUntilWaitEnds(last, ps[..|ps| - 1]);
      assert Numbers(ps)[..|ps| - 1] == Numbers(ps[..|ps| - 1]);
      assert ps[|ps| - 1] in ps;
    }
  }

  lemma {:induction false} ForwardAllSkips(p: Publisher, ns: seq<Seq>, floor: Seq)
    requires floor <= p.last
    ensures ForwardAll(p, Above(floor, ns)) == ForwardAll(p, ns) && floor <= ForwardAll(p, ns).last
  {
    if ns != [] {
      var front, n := ns[..|ns| - 1], ns[|ns| - 1];
      ForwardAllSkips(p, front, floor);
      if n > floor { assert (Above(floor, front) + [n])[..|Above(floor, front)|] == Above(floor, front); }
    }
  }

  lemma {:induction false} ForwardAllAppend(p: Publisher, a: seq<Seq>, b: seq<Seq>)
    ensures ForwardAll(p, a + b) == ForwardAll(ForwardAll(p, a), b)
  {
    if b == [] {
      assert a + b == a;
    } else {
      ForwardAllAppend(p, a, b[..|b| - 1]);
      assert (a + b)[..|a + b| - 1] == a + b[..|b| - 1];
    }
  }

  lemma {:induction false} ReceiveEachAppend(p: Publisher, a: seq<Packet>, b: seq<Packet>)
    ensures ReceiveEach(p, a + b) == ReceiveEach(ReceiveEach(p, a), b)
  {
    if b == [] {
      assert a + b == a;
    } else {
      ReceiveEachAppend(p, a, b[..|b| - 1]);
      assert (a + b)[..|a + b| - 1] == a + b[..|b| - 1];
    }
  }

  /** What counts once `e` has ended the wait: the packets from it on if it is the successor that was
      waited for, and all received if the wait was given up. */
  function Counted(last: Seq, before: seq<Packet>, e: Packet, after: seq<Packet>): seq<Seq> {
    if e.n == last + 1 then [e.n] + Numbers(after) else Numbers(before) + ([e.n] + Numbers(after))
  }

  lemma {:induction false} SuccessorEndsWait(last: Seq, before: seq<Packet>, e: Packet)
    requires 0 < last && (forall p :: p in before ==> !EndsWait(last, p)) && e.n == last + 1
    ensures ReceiveEach(MigratedIn(last), before + [e]) == ForwardAll(Open(last), [e.n])
  {
    HeldUntilWaitEnds(last, before);
    assert (before + [e])[..|before|] == before && [e.n][..0] == [];
    assert ForwardAll(Open(last), [e.n]) == Forward(Open(last), e.n);
  }

  lemma {:induction false} ExpiryEndsWait(last: Seq, before: seq<Packet>, e: Packet)
    requires 0 < last && (forall p :: p in before ==> !EndsWait(last, p)) && EndsWait(last, e) && e.n != last + 1
    ensures ReceiveEach(MigratedIn(last), before + [e]) == ForwardAll(Open(last), Numbers(before) + [e.n])
  {
    HeldUntilWaitEnds(last, before);
    var ns := Numbers(before);
    assert (before + [e])[..|before|] == before && (ns + [e.n])[..|ns|] == ns;
    assert Above(last, ns + [e.n]) == Above(last, ns) + [e.n];
    var p := ReceiveEach(MigratedIn(last), before);
    assert OnReceived(p, e.n, e.expired) == ForwardAll(Open(last), Above(last, ns) + [e.n]);
    ForwardAllSkips(Open(last), ns + [e.n], last);
  }

  /** Exactly: a session migrated in with `last` forwards, of the packets that count, each that is above
      `last` and above all of them before it, in order, however large the gaps. */
  lemma {:induction false} ForwardsExactly(last: Seq, before: seq<Packet>, e: Packet, after: seq<Packet>) returns (at: seq<nat>)
    requires 0 < last && (forall p :: p in before ==> !EndsWait(last, p)) && EndsWait(last, e)
    ensures var ns := Counted(last, before, e, after);
            var p := ReceiveEach(MigratedIn(last), before + [e] + after);
            Records(at, last, ns) && Picks(p.forwarded, ns, at) && IsTop(p.last, last, ns)
  {
    var p := Open(last);
    var first := if e.n == last + 1 then [e.n] else Numbers(before) + [e.n];
    if e.n == last + 1 { SuccessorEndsWait(last, before, e); } else { ExpiryEndsWait(last, before, e); }
    ReceiveEachAppend(MigratedIn(last), before + [e], after);
    ForwardAllStaysOpen(p, first);
    ReceivesAsForwards(ForwardAll(p, first), after);
    ForwardAllAppend(p, first, Numbers(after));
    assert first + Numbers(after) == Counted(last, before, e, after);
    at := ForwardAllRecords(last, Counted(last, before, e, after));
  }

  /** So packets held back in increasing order are all forwarded when the wait is given up. */
  lemma {:induction false} TimeoutForwardsHeld(last: Seq, before: seq<Packet>, e: Packet)
    requires 0 < last && (forall p :: p in before ==> !EndsWait(last, p)) && EndsWait(last, e) && e.n != last + 1
    requires var ns := Numbers(before) + [e.n]; Increasing(ns) && forall i :: 0 <= i < |ns| ==> last < ns[i]
    ensures ReceiveEach(MigratedIn(last), before + [e]).forwarded == Numbers(before) + [e.n]
  {
    var at := ForwardsExactly(last, before, e, []);
    var ns := Counted(last, before, e, []);
    assert before + [e] + [] == before + [e] && ns == Numbers(before) + [e.n];
    assert forall i: nat :: i < |ns| ==> IsRecord(last, ns, i);
    AllIndices(at, |ns|);
  }

  lemma {:induction false} AllIndices(at: seq<nat>, n: nat)
    requires forall i: nat :: i in at <==> i < n
    requires forall k, l :: 0 <= k < l < |at| ==> at[k] < at[l]
    ensures |at| == n && forall k :: 0 <= k < n ==> at[k] == k
  {
    forall k | 0 <= k < |at| ensures at[k] < n { assert at[k] in at; }
    assert at != [] ==> at[0] < n;
    if n > 0 {
      assert n - 1 in at;
      var last := at[|at| - 1];
      assert last < n && forall k :: 0 <= k < |at| - 1 ==> at[k] < last;
      var front := at[..|at| - 1];
      forall i: nat ensures i in front <==> i < n - 1 {
        if i in at && i < n - 1 { var l :| 0 <= l < |at| && at[l] == i; assert front[l] == i; }
        if i in front { var l :| 0 <= l < |front| && front[l] == i; assert at[l] in at; }
      }
      AllIndices(front, n - 1);
    }
  }

  /** A session that has nothing to wait for, or waits no longer, forwards exactly what is above its
      last sequence, whatever the gap; one that was asked for its last sequence forwards nothing. */
  lemma ForwardsIffAbove(p: Publisher, n: Seq, expired: bool)
    requires p.cache.None?
    ensures OnReceived(p, n, expired)
            == if !p.stopped && p.last < n then p.(last := n, forwarded := p.forwarded + [n]) else p
  {
  }
}
