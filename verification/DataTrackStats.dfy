/**
 Loss accounting of a data track (pkg/rtc/datatrack_stats.go) over 16-bit sequence numbers.
 A packet stream is given by unwrapped numbers; the statistics see them modulo 2^16.
 */
module DataTrackStats {
  import opened Wrappers

  const MODULUS := 0x1_0000
  const HALF := 0x8000

  type Seq16 = n: nat | n < 0x1_0000 witness 0

  function Wrap(u: int): Seq16 { u % MODULUS }

  /** Subtraction of uint16 values. */
  function Diff(a: Seq16, b: Seq16): Seq16 { (a - b) % MODULUS }

  datatype Stats = Stats(
    started: bool,
    ended: bool,
    highest: Seq16,
    packets: int,
    lost: int,
    outOfOrder: int,
    frames: int,
    bytes: int)

  const Fresh := Stats(false, false, 0, 0, 0, 0, 0, 0)

  datatype Packet = Packet(number: Seq16, isFinalOfFrame: bool, length: nat)

  function Framed(s: Stats, p: Packet): Stats {
    if p.isFinalOfFrame then s.(frames := s.frames + 1) else s
  }

  /** dataTrackStats.Update; a start time of zero stands for "not started". */
  function Updated(s: Stats, p: Packet, arrivedAtZero: bool): Stats {
    var t := s.(bytes := s.bytes + p.length);
    if s.ended then t
    else if !s.started then Framed(t.(started := !arrivedAtZero, highest := p.number, packets := 1), p)
    else
      var diff := Diff(p.number, s.highest);
      if diff == 0 then t
      else if diff > HALF then
        Framed(t.(packets := s.packets + 1, outOfOrder := s.outOfOrder + 1,
                  lost := if s.lost > 0 then s.lost - 1 else s.lost), p)
      else
        Framed(t.(packets := s.packets + 1, lost := s.lost + diff - 1, highest := p.number), p)
  }

  // --------------------------------------------------------------- streams

  /** A packet with its unwrapped number. */
  datatype Arrival = Arrival(number: int, isFinalOfFrame: bool, length: nat)

  function OnWire(a: Arrival): Packet { Packet(Wrap(a.number), a.isFinalOfFrame, a.length) }

  function UpdateAll(arrivals: seq<Arrival>): Stats {
    if arrivals == [] then Fresh
    else Updated(UpdateAll(arrivals[..|arrivals| - 1]), OnWire(arrivals[|arrivals| - 1]), false)
  }

  function Highest(arrivals: seq<Arrival>): int
    requires arrivals != []
  {
    var last := arrivals[|arrivals| - 1].number;
    if |arrivals| == 1 then last
    else
      var before := Highest(arrivals[..|arrivals| - 1]);
      if last > before then last else before
  }

  function Numbers(arrivals: seq<Arrival>): set<int> {
    set i | 0 <= i < |arrivals| :: arrivals[i].number
  }

  /** No packet before the first, each within 2^15 of the highest before it. */
  ghost predicate InRange(arrivals: seq<Arrival>) {
    |arrivals| <= 1 ||
    (var front, last := arrivals[..|arrivals| - 1], arrivals[|arrivals| - 1].number;
     && InRange(front)
     && arrivals[0].number <= last
     && Highest(front) - HALF < last <= Highest(front) + HALF)
  }

  /** The last packet is new, or repeats the highest. */
  ghost predicate NewOrHighest(arrivals: seq<Arrival>)
    requires |arrivals| > 1
  {
    var front, last := arrivals[..|arrivals| - 1], arrivals[|arrivals| - 1].number;
    last !in Numbers(front) || last == Highest(front)
  }

  /** Only the packet with the highest number is ever repeated. */
  ghost predicate RepeatsHighestOnly(arrivals: seq<Arrival>) {
    |arrivals| <= 1 || (RepeatsHighestOnly(arrivals[..|arrivals| - 1]) && NewOrHighest(arrivals))
  }

  /** The numbers from `first` to `highest`. */
  function Span(first: int, highest: int): (span: set<int>)
    requires first <= highest
    ensures forall u :: u in span <==> first <= u <= highest
    ensures |span| == highest - first + 1
    decreases highest - first
  {
    if first == highest then {first} else Span(first, highest - 1) + {highest}
  }

  lemma WrapDiff(a: int, b: int)
    requires -HALF < a - b <= HALF
    ensures Diff(Wrap(a), Wrap(b)) == if a >= b then a - b else a - b + MODULUS
  {
    assert (Wrap(a) - Wrap(b)) % MODULUS == (a - b) % MODULUS by {
      var qa, qb := a / MODULUS, b / MODULUS;
      assert a == qa * MODULUS + Wrap(a) && b == qb * MODULUS + Wrap(b);
    }
  }

  lemma NumbersOfAppend(arrivals: seq<Arrival>)
    requires arrivals != []
    ensures Numbers(arrivals) == Numbers(arrivals[..|arrivals| - 1]) + {arrivals[|arrivals| - 1].number}
  {
    var front := arrivals[..|arrivals| - 1];
    assert arrivals == front + [arrivals[|arrivals| - 1]];
  }

  lemma {:induction false} HighestIsReceived(arrivals: seq<Arrival>)
    requires arrivals != []
    ensures Highest(arrivals) in Numbers(arrivals)
  {
    NumbersOfAppend(arrivals);
    if |arrivals| > 1 { HighestIsReceived(arrivals[..|arrivals| - 1]); }
  }

  /** The statistics after `arrivals` account for every number from the first to the highest. */
  ghost predicate Accounts(arrivals: seq<Arrival>)
    requires arrivals != []
  {
    var s, first, highest := UpdateAll(arrivals), arrivals[0].number, Highest(arrivals);
    && s.started && !s.ended && s.highest == Wrap(highest) && first <= highest
    && s.packets == |Numbers(arrivals)|
    && Numbers(arrivals) <= Span(first, highest)
    && s.packets + s.lost == highest - first + 1
  }

  /** When a packet that was not received before is out of order, some packet is counted as
      lost: the guard that keeps the counter from going below zero decides nothing. */
  lemma {:induction false} GuardNeverFires(front: seq<Arrival>, last: int)
    requires front != [] && Accounts(front)
    requires front[0].number <= last < Highest(front) && last !in Numbers(front)
    ensures UpdateAll(front).lost > 0
  {
    SubsetSize(Numbers(front), Span(front[0].number, Highest(front)));
  }

  /** One more packet moves packets, lost and highest together with the span. */
  lemma NextIsCounted(s: Stats, last: Arrival, first: int, before: int)
    requires s.started && !s.ended && s.highest == Wrap(before) && s.packets + s.lost == before - first + 1
    requires last.number != before && -HALF < last.number - before <= HALF
    requires last.number < before ==> s.lost > 0
    ensures var t, highest := Updated(s, OnWire(last), false), if last.number > before then last.number else before;
            && t.started && !t.ended && t.highest == Wrap(highest)
            && t.packets == s.packets + 1 && t.packets + t.lost == highest - first + 1
  {
    WrapDiff(last.number, before);
  }

  lemma NewIsAccounted(arrivals: seq<Arrival>)
    requires |arrivals| > 1 && InRange(arrivals) && Accounts(arrivals[..|arrivals| - 1])
    requires arrivals[|arrivals| - 1].number !in Numbers(arrivals[..|arrivals| - 1])
    ensures Accounts(arrivals)
  {
    var front, last := arrivals[..|arrivals| - 1], arrivals[|arrivals| - 1];
    var before, first := Highest(front), arrivals[0].number;
    assert front[0].number == first && Highest(arrivals) == if last.number > before then last.number else before;
    NumbersOfAppend(arrivals);
    HighestIsReceived(front);
    if last.number < before { GuardNeverFires(front, last.number); }
    NextIsCounted(UpdateAll(front), last, first, before);
    assert UpdateAll(arrivals) == Updated(UpdateAll(front), OnWire(last), false);
    assert Numbers(arrivals) <= Span(first, Highest(arrivals));
  }

  /** A repeat changes no number; it leaves the counters alone exactly when it is of the highest. */
  lemma RepeatIsCounted(arrivals: seq<Arrival>)
    requires |arrivals| > 1 && InRange(arrivals) && Accounts(arrivals[..|arrivals| - 1])
    requires arrivals[|arrivals| - 1].number in Numbers(arrivals[..|arrivals| - 1])
    ensures Accounts(arrivals) <==> arrivals[|arrivals| - 1].number == Highest(arrivals[..|arrivals| - 1])
  {
    var front, last := arrivals[..|arrivals| - 1], arrivals[|arrivals| - 1];
    NumbersOfAppend(arrivals);
    assert Numbers(arrivals) == Numbers(front);
    assert last.number in Span(front[0].number, Highest(front));
    assert Highest(arrivals) == Highest(front);
    WrapDiff(last.number, Highest(front));
    assert UpdateAll(arrivals) == Updated(UpdateAll(front), OnWire(last), false);
  }

  /** Statistics that account for a stream account for it with one more packet in range exactly
      when that packet is new or repeats the highest. */
  lemma NextIsAccountedIff(arrivals: seq<Arrival>)
    requires |arrivals| > 1 && InRange(arrivals) && Accounts(arrivals[..|arrivals| - 1])
    ensures Accounts(arrivals) <==> NewOrHighest(arrivals)
  {
    if arrivals[|arrivals| - 1].number in Numbers(arrivals[..|arrivals| - 1]) {
      RepeatIsCounted(arrivals);
    } else {
      NewIsAccounted(arrivals);
    }
  }

  /** The statistics account for the stream at every point. */
  ghost predicate AlwaysAccounts(arrivals: seq<Arrival>)
    requires arrivals != []
  {
    Accounts(arrivals) && (|arrivals| == 1 || AlwaysAccounts(arrivals[..|arrivals| - 1]))
  }

  lemma OneIsAccounted(arrivals: seq<Arrival>)
    requires |arrivals| == 1
    ensures Accounts(arrivals)
  {
    var front := arrivals[..|arrivals| - 1];
    assert front == [] && UpdateAll(front) == Fresh;
    assert Numbers(arrivals) == {arrivals[0].number};
  }

  /** For every stream in range, across wraparound: the statistics account for it at every
      point exactly when no packet below the highest is repeated. */
  lemma {:induction false} AccountsIffRepeatsHighestOnly(arrivals: seq<Arrival>)
    requires arrivals != [] && InRange(arrivals)
    ensures AlwaysAccounts(arrivals) <==> RepeatsHighestOnly(arrivals)
  {
    if |arrivals| == 1 {
      OneIsAccounted(arrivals);
    } else {
      AccountsIffRepeatsHighestOnly(arrivals[..|arrivals| - 1]);
      if AlwaysAccounts(arrivals[..|arrivals| - 1]) { NextIsAccountedIff(arrivals); }
    }
  }

  /** In every such stream: packets received plus packets counted as lost is the whole span from
      the first to the highest, and the count of lost packets is that of the numbers missing
      from it.  Where nothing is repeated every packet is counted. */
  lemma {:induction false} ReceivedPlusLostIsSpan(arrivals: seq<Arrival>)
    requires arrivals != [] && InRange(arrivals) && RepeatsHighestOnly(arrivals)
    ensures var s, first, highest := UpdateAll(arrivals), arrivals[0].number, Highest(arrivals);
            && first <= highest
            && s.packets == |Numbers(arrivals)|
            && (NeverRepeats(arrivals) ==> s.packets == |arrivals|)
            && s.packets + s.lost == highest - first + 1
            && s.lost == |Span(first, highest) - Numbers(arrivals)|
  {
    AccountsIffRepeatsHighestOnly(arrivals);
    if NeverRepeats(arrivals) { NumbersOfDistinct(arrivals); }
    var span := Span(arrivals[0].number, Highest(arrivals));
    assert span == Numbers(arrivals) + (span - Numbers(arrivals));
  }

  // -------------------------------------------------- the other counters

  function TotalLength(arrivals: seq<Arrival>): nat {
    if arrivals == [] then 0 else TotalLength(arrivals[..|arrivals| - 1]) + arrivals[|arrivals| - 1].length
  }

  /** The packets below the highest received before them. */
  function BelowHighest(arrivals: seq<Arrival>): nat {
    if |arrivals| <= 1 then 0
    else
      var front, last := arrivals[..|arrivals| - 1], arrivals[|arrivals| - 1];
      BelowHighest(front) + if last.number < Highest(front) then 1 else 0
  }

  /** The packets that end a frame and do not repeat the highest received before them. */
  function FrameEnds(arrivals: seq<Arrival>): nat {
    if arrivals == [] then 0
    else
      var front, last := arrivals[..|arrivals| - 1], arrivals[|arrivals| - 1];
      FrameEnds(front) + if last.isFinalOfFrame && (front == [] || last.number != Highest(front)) then 1 else 0
  }

  /** In every stream in range, whatever is repeated: all bytes are counted, the packets out of order
      are those below the highest before them, and a frame is counted with its last packet. */
  lemma {:induction false} OtherCountersAreExact(arrivals: seq<Arrival>)
    requires arrivals != [] && InRange(arrivals)
    ensures var s := UpdateAll(arrivals);
            && s.started && !s.ended && s.highest == Wrap(Highest(arrivals))
            && s.bytes == TotalLength(arrivals) && s.outOfOrder == BelowHighest(arrivals) && s.frames == FrameEnds(arrivals)
  {
    var front, last := arrivals[..|arrivals| - 1], arrivals[|arrivals| - 1];
    if front == [] {
      assert UpdateAll(front) == Fresh;
    } else {
      OtherCountersAreExact(front);
      WrapDiff(last.number, Highest(front));
    }
  }

  /** Once the track has ended only bytes are counted. */
  lemma EndedCountsBytesOnly(s: Stats, p: Packet, arrivedAtZero: bool)
    requires s.ended
    ensures Updated(s, p, arrivedAtZero) == s.(bytes := s.bytes + p.length)
  {
  }

  ghost predicate NeverRepeats(arrivals: seq<Arrival>) {
    forall i, j :: 0 <= i < j < |arrivals| ==> arrivals[i].number != arrivals[j].number
  }

  lemma {:induction false} NumbersOfDistinct(arrivals: seq<Arrival>)
    requires NeverRepeats(arrivals)
    ensures |Numbers(arrivals)| == |arrivals|
  {
    if arrivals != [] {
      NumbersOfAppend(arrivals);
      NumbersOfDistinct(arrivals[..|arrivals| - 1]);
    }
  }

  /** A repeated packet below the highest is counted as another one ... */
  lemma RepeatIsMiscounted()
    ensures var s := UpdateAll([Arrival(7, false, 1), Arrival(8, false, 1), Arrival(7, false, 1)]);
            s.packets == 3 && s.lost == 0
  {
    var a, b := Arrival(7, false, 1), Arrival(8, false, 1);
    assert [a, b, a][..2] == [a, b] && [a, b][..1] == [a] && [a][..0] == [];
    assert UpdateAll([a]) == Updated(Fresh, OnWire(a), false);
    assert UpdateAll([a, b]) == Updated(UpdateAll([a]), OnWire(b), false);
  }

  /** ... and makes up for one that is missing. */
  lemma RepeatHidesLoss()
    ensures var arrivals := [Arrival(7, false, 1), Arrival(9, false, 1), Arrival(7, false, 1)];
            var s := UpdateAll(arrivals);
            s.packets == 3 && s.lost == 0 && 8 !in Numbers(arrivals)
  {
    var a, b := Arrival(7, false, 1), Arrival(9, false, 1);
    assert [a, b, a][..2] == [a, b] && [a, b][..1] == [a] && [a][..0] == [];
    assert UpdateAll([a]) == Updated(Fresh, OnWire(a), false);
    assert UpdateAll([a, b]) == Updated(UpdateAll([a]), OnWire(b), false);
  }

  // --------------------------------------------------------------- object

  class DataTrackStatistics {
    var startTime: int
    var endTime: int
    var highestSequenceNumber: Seq16
    var numPackets: int
    var numPacketsLost: int
    var numPacketsOutOfOrder: int
    var numFrames: int
    var numBytes: int

    constructor ()
      ensures State() == Fresh
    {
      startTime, endTime, highestSequenceNumber := 0, 0, 0;
      numPackets, numPacketsLost, numPacketsOutOfOrder, numFrames, numBytes := 0, 0, 0, 0, 0;
    }

    ghost function State(): Stats
      reads this
    {
      Stats(startTime != 0, endTime != 0, highestSequenceNumber, numPackets, numPacketsLost,
            numPacketsOutOfOrder, numFrames, numBytes)
    }

    method Update(p: Packet, arrivalTime: int)
      modifies this
      ensures State() == Updated(old(State()), p, arrivalTime == 0)
    {
      numBytes := numBytes + p.length;
      if endTime != 0 {
        return;
      }
      if startTime == 0 {
        startTime := arrivalTime;
        highestSequenceNumber := p.number;
        numPackets := 1;
      } else {
        var diff := Diff(p.number, highestSequenceNumber);
        if diff == 0 {
          return;
        } else if diff > HALF {
          numPackets := numPackets + 1;
          numPacketsOutOfOrder := numPacketsOutOfOrder + 1;
          if numPacketsLost > 0 {
            numPacketsLost := numPacketsLost - 1;
          }
        } else {
          numPackets := numPackets + 1;
          numPacketsLost := numPacketsLost + diff - 1;
          highestSequenceNumber := p.number;
        }
      }
      if p.isFinalOfFrame {
        numFrames := numFrames + 1;
      }
    }
  }
}
