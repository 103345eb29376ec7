/**
 The duplicate filter for user packets (pkg/rtc/user_packet_deduper.go): a linked list,
 stored in a map from each id to the id accepted after it, that refines a bounded FIFO.

 An id is accepted unless it is one of the MAX_SIZE most recently accepted ones; accepting one
 more forgets the oldest.  A packet whose bytes are no id is never a duplicate.
 */
module UserPacketDeduper {
  import opened Wrappers

  const MAX_SIZE := 100

  datatype Uuid = Uuid(bytes: seq<bv8>)

  /** The zero value of uuid.UUID, where the chain starts. */
  const NIL := Uuid([0, 0, 0, 0, 0, 0, 0, 0, 0, 0, 0, 0, 0, 0, 0, 0])

  /** uuid.FromBytes accepts exactly sixteen bytes. */
  function FromBytes(nonce: seq<bv8>): Option<Uuid> {
    if |nonce| == 16 then Some(Uuid(nonce)) else None
  }

  // ------------------------------------------------------- specification

  /** The last MAX_SIZE accepted ids, oldest first. */
  function Recent(accepted: seq<Uuid>): seq<Uuid> {
    if |accepted| <= MAX_SIZE then accepted else accepted[|accepted| - MAX_SIZE..]
  }

  /** The ids accepted out of `ids`, after the nil id: those not among the recent ones when
      they come. */
  function Accepted(ids: seq<Uuid>): seq<Uuid> {
    if ids == [] then [NIL]
    else
      var before, id := Accepted(ids[..|ids| - 1]), ids[|ids| - 1];
      if id in Recent(before) then before else before + [id]
  }

  // ------------------------------------------------------ representation

  datatype List = List(seen: map<Uuid, Uuid>, head: Uuid, tail: Uuid)

  const EmptyList := List(map[], NIL, NIL)

  /** The link of `id`; the zero value if there is none. */
  function Next(seen: map<Uuid, Uuid>, id: Uuid): Uuid { if id in seen then seen[id] else NIL }

  /** IsDuplicate on a parsed id: the new list and the answer. */
  function Insert(l: List, id: Uuid): (List, bool) {
    if l.head == id || id in l.seen then (l, true)
    else
      var seen := l.seen[l.head := id];
      if |seen| == MAX_SIZE then (List(seen - {l.tail}, id, Next(seen, l.tail)), false)
      else (List(seen, id, l.tail), false)
  }

  function InsertAll(ids: seq<Uuid>): List {
    if ids == [] then EmptyList else Insert(InsertAll(ids[..|ids| - 1]), ids[|ids| - 1]).0
  }

  /** Node `i` of `chain` links to the next one. */
  ghost predicate LinkAt(seen: map<Uuid, Uuid>, chain: seq<Uuid>, i: nat)
    requires i < |chain| - 1
  {
    chain[i] in seen && seen[chain[i]] == chain[i + 1]
  }

  /** The links of `seen` run through `chain`, without repetition, and its keys are exactly
      the nodes before the last. */
  ghost predicate Linked(seen: map<Uuid, Uuid>, chain: seq<Uuid>) {
    && chain != [] && Distinct(chain)
    && |seen| == |chain| - 1
    && (forall i {:trigger LinkAt(seen, chain, i)} :: 0 <= i < |chain| - 1 ==> LinkAt(seen, chain, i))
    && (forall id :: id in seen ==> id in chain && id != chain[|chain| - 1])
  }

  /** The chain runs from `tail` to `head`. */
  ghost predicate Represents(l: List, chain: seq<Uuid>) {
    && Linked(l.seen, chain) && |chain| <= MAX_SIZE
    && chain[0] == l.tail && chain[|chain| - 1] == l.head
  }

  lemma MemberIffKnown(l: List, chain: seq<Uuid>, id: Uuid)
    requires Represents(l, chain)
    ensures id in chain <==> id == l.head || id in l.seen
  {
    if id in chain {
      var i :| 0 <= i < |chain| && chain[i] == id;
      if i < |chain| - 1 { assert LinkAt(l.seen, chain, i); }
    }
  }

  lemma LinkLast(seen: map<Uuid, Uuid>, chain: seq<Uuid>, id: Uuid)
    requires Linked(seen, chain) && id !in chain
    ensures Linked(seen[chain[|chain| - 1] := id], chain + [id])
  {
    var last, longer, grown := chain[|chain| - 1], chain + [id], seen[chain[|chain| - 1] := id];
    assert last !in seen;
    assert forall k :: k in longer <==> k in chain || k == id;
    forall i | 0 <= i < |longer| - 1 ensures LinkAt(grown, longer, i) {
      if i < |chain| - 1 { assert LinkAt(seen, chain, i) && chain[i] != last; }
    }
  }

  lemma UnlinkFirst(seen: map<Uuid, Uuid>, chain: seq<Uuid>)
    requires Linked(seen, chain) && |chain| > 1
    ensures Linked(seen - {chain[0]}, chain[1..])
  {
    var rest, fewer := chain[1..], seen - {chain[0]};
    assert LinkAt(seen, chain, 0) && fewer.Keys == seen.Keys - {chain[0]};
    assert chain == [chain[0]] + rest;
    assert rest[|rest| - 1] == chain[|chain| - 1];
    forall i | 0 <= i < |rest| - 1 ensures LinkAt(fewer, rest, i) {
      assert LinkAt(seen, chain, i + 1) && chain[i + 1] != chain[0];
    }
  }

  /** A new id becomes the head of the chain ... */
  lemma InsertGrows(l: List, chain: seq<Uuid>, id: Uuid)
    requires Represents(l, chain) && id !in chain && |chain| < MAX_SIZE
    ensures Represents(Insert(l, id).0, chain + [id])
  {
    MemberIffKnown(l, chain, id);
    LinkLast(l.seen, chain, id);
    assert l.head == chain[|chain| - 1];
    assert |l.seen[l.head := id]| == |chain|;
  }

  /** ... and at full size the tail leaves it. */
  lemma InsertShifts(l: List, chain: seq<Uuid>, id: Uuid)
    requires Represents(l, chain) && id !in chain && |chain| == MAX_SIZE
    ensures Represents(Insert(l, id).0, (chain + [id])[1..])
  {
    var longer, seen := chain + [id], l.seen[l.head := id];
    MemberIffKnown(l, chain, id);
    LinkLast(l.seen, chain, id);
    assert l.head == chain[|chain| - 1] && l.tail == longer[0];
    assert |seen| == |chain|;
    UnlinkFirst(seen, longer);
    assert LinkAt(seen, longer, 0);
    assert Next(seen, l.tail) == longer[1];
  }

  lemma InsertAdvances(l: List, chain: seq<Uuid>, id: Uuid)
    requires Represents(l, chain) && id !in chain
    ensures Represents(Insert(l, id).0, if |chain| == MAX_SIZE then (chain + [id])[1..] else chain + [id])
  {
    if |chain| == MAX_SIZE { InsertShifts(l, chain, id); } else { InsertGrows(l, chain, id); }
  }

  lemma RecentAppend(accepted: seq<Uuid>, id: Uuid)
    ensures var longer := Recent(accepted) + [id];
            Recent(accepted + [id]) == if |Recent(accepted)| == MAX_SIZE then longer[1..] else longer
  {
  }

  // -------------------------------------------------------- main results

  /** For every sequence of ids the list represents exactly the recent accepted ids. */
  lemma {:induction false} ListIsRecent(ids: seq<Uuid>)
    ensures Represents(InsertAll(ids), Recent(Accepted(ids)))
    ensures |Accepted(ids)| > 0
  {
    if ids == [] {
      assert Accepted(ids) == [NIL];
    } else {
      var front, id := ids[..|ids| - 1], ids[|ids| - 1];
      ListIsRecent(front);
      var before := Accepted(front);
      MemberIffKnown(InsertAll(front), Recent(before), id);
      if id !in Recent(before) {
        InsertAdvances(InsertAll(front), Recent(before), id);
        RecentAppend(before, id);
      }
    }
  }

  /** An id is reported as a duplicate exactly when it is among the MAX_SIZE most recently
      accepted ones, the nil id counting as the first. */
  lemma {:induction false} DuplicateIffRecent(ids: seq<Uuid>, id: Uuid)
    ensures Insert(InsertAll(ids), id).1 <==> id in Recent(Accepted(ids))
  {
    ListIsRecent(ids);
    MemberIffKnown(InsertAll(ids), Recent(Accepted(ids)), id);
  }

  /** The accepted ids grow by at most one at a time and are never taken back. */
  lemma {:induction false} AcceptedGrows(ids: seq<Uuid>, more: seq<Uuid>)
    ensures Accepted(ids) <= Accepted(ids + more)
    ensures |Accepted(ids + more)| <= |Accepted(ids)| + |more|
  {
    if more == [] {
      assert ids + more == ids;
    } else {
      assert (ids + more)[..|ids + more| - 1] == ids + more[..|more| - 1];
      AcceptedGrows(ids, more[..|more| - 1]);
    }
  }

  /** An accepted id stays among the recent ones, and is not accepted again, until MAX_SIZE
      other ids have been. */
  lemma {:induction false} AcceptedStaysRecent(ids: seq<Uuid>, id: Uuid, more: seq<Uuid>)
    requires ids != [] && ids[|ids| - 1] == id && id !in Recent(Accepted(ids[..|ids| - 1]))
    requires |Accepted(ids + more)| - |Accepted(ids)| <= MAX_SIZE
    ensures Accepted(ids) <= Accepted(ids + more) && Accepted(ids)[|Accepted(ids)| - 1] == id
    ensures id !in Accepted(ids + more)[|Accepted(ids)|..]
  {
    AcceptedGrows(ids, more);
    var n := |Accepted(ids)|;
    if more == [] {
      assert ids + more == ids;
    } else {
      var front, x := more[..|more| - 1], more[|more| - 1];
      assert (ids + more)[..|ids + more| - 1] == ids + front && (ids + more)[|ids + more| - 1] == x;
      AcceptedStaysRecent(ids, id, front);
      if x !in Recent(Accepted(ids + front)) { NextAccepted(Accepted(ids + front), n, id, x); }
    }
  }

  /** What is accepted next is not an id that is still recent. */
  lemma NextAccepted(before: seq<Uuid>, n: nat, id: Uuid, x: Uuid)
    requires 0 < n <= |before| && before[n - 1] == id && id !in before[n..] && x !in Recent(before) && |before| - n < MAX_SIZE
    ensures id !in (before + [x])[n..]
  {
    LastOfWindow(before, n - 1);
    assert (before + [x])[n..] == before[n..] + [x];
  }

  lemma LastOfWindow(accepted: seq<Uuid>, i: nat)
    requires i < |accepted| && |accepted| - i <= MAX_SIZE
    ensures accepted[i] in Recent(accepted)
  {
    if |accepted| > MAX_SIZE { assert Recent(accepted)[i - (|accepted| - MAX_SIZE)] == accepted[i]; }
  }

  /** When an id has just been accepted, its repetitions are caught while fewer than 100 other ids
      have been accepted since, and no longer when 100 have been. */
  lemma {:induction false} CaughtWithinWindow(ids: seq<Uuid>, id: Uuid, more: seq<Uuid>)
    requires ids != [] && ids[|ids| - 1] == id && id !in Recent(Accepted(ids[..|ids| - 1]))
    requires |Accepted(ids + more)| - |Accepted(ids)| <= 100
    ensures Insert(InsertAll(ids + more), id).1 <==> |Accepted(ids + more)| - |Accepted(ids)| < 100
  {
    AcceptedStaysRecent(ids, id, more);
    var n, later := |Accepted(ids)|, Accepted(ids + more);
    DuplicateIffRecent(ids + more, id);
    assert later[n - 1] == id;
    RecentIffWithin(later, n, id);
  }

  lemma RecentIffWithin(accepted: seq<Uuid>, n: nat, id: Uuid)
    requires 0 < n <= |accepted| && accepted[n - 1] == id && id !in accepted[n..] && |accepted| - n <= MAX_SIZE
    ensures id in Recent(accepted) <==> |accepted| - n < MAX_SIZE
  {
    if |accepted| - n < MAX_SIZE {
      LastOfWindow(accepted, n - 1);
    } else {
      assert Recent(accepted) == accepted[n..];
    }
  }

  // --------------------------------------------------------------- object

  class Deduper {
    var seen: map<Uuid, Uuid>
    var head: Uuid
    var tail: Uuid
    ghost var ids: seq<Uuid>

    constructor ()
      ensures Valid() && ids == []
    {
      seen, head, tail, ids := map[], NIL, NIL, [];
    }

    ghost predicate Valid()
      reads this
    {
      List(seen, head, tail) == InsertAll(ids)
    }

    /** A nonce that is no id is never a duplicate and leaves no trace. */
    method IsDuplicate(nonce: seq<bv8>) returns (duplicate: bool)
      requires Valid()
      modifies this
      ensures Valid()
      ensures match FromBytes(nonce)
              case None => !duplicate && ids == old(ids)
              case Some(id) => ids == old(ids) + [id] && (duplicate <==> id in Recent(Accepted(old(ids))))
    {
      var parsed := FromBytes(nonce);
      if parsed.None? {
        return false;
      }
      var id := parsed.value;
      ghost var before := ids;
      ids := ids + [id];
      assert ids[..|ids| - 1] == before;
      DuplicateIffRecent(before, id);
      ListIsRecent(before);
      if head == id {
        return true;
      }
      if id in seen {
        return true;
      }
      seen := seen[head := id];
      head := id;
      if |seen| == MAX_SIZE {
        var last := tail;
        tail := Next(seen, last);
        seen := seen - {last};
      }
      duplicate := false;
    }
  }
}
