/**
 Choosing a worker for a job (pkg/service/agentservice.go): a random choice weighted by
 spare capacity, and the loop that retries it until a worker takes the job.  Loads are
 exact reals; the random number and the workers' answers are parameters.

 The candidates are visited as a map is ranged over, so what is stated holds for every order
 of visiting them.
 */
module WorkerSelection {
  import opened Wrappers

  /** A connected worker, by its identity as an object. */
  datatype Worker = Worker(handle: int)

  /** What the workers report at one moment: Status() == WS_AVAILABLE and Load(). */
  datatype View = View(available: Worker -> bool, load: Worker -> real)

  predicate Candidate(v: View, ignore: set<Worker>, w: Worker) {
    w !in ignore && v.available(w)
  }

  /** Normalized load. */
  function Weight(v: View, w: Worker): real {
    if 1.0 - v.load(w) > 0.0 then 1.0 - v.load(w) else 0.0
  }

  ghost function Total(v: View, list: seq<Worker>): (total: real)
    ensures total >= 0.0
  {
    if list == [] then 0.0 else Total(v, list[..|list| - 1]) + Weight(v, list[|list| - 1])
  }

  ghost function Candidates(v: View, ignore: set<Worker>, list: seq<Worker>): seq<Worker> {
    if list == [] then []
    else
      var rest, last := Candidates(v, ignore, list[..|list| - 1]), list[|list| - 1];
      if Candidate(v, ignore, last) then rest + [last] else rest
  }

  lemma {:induction false} TotalAppend(v: View, a: seq<Worker>, b: seq<Worker>)
    ensures Total(v, a + b) == Total(v, a) + Total(v, b)
  {
    if b == [] {
      assert a + b == a;
    } else {
      TotalAppend(v, a, b[..|b| - 1]);
      assert (a + b)[..|a + b| - 1] == a + b[..|b| - 1];
    }
  }

  lemma TotalAround(v: View, a: seq<Worker>, w: Worker, b: seq<Worker>)
    ensures Total(v, a + [w] + b) == Total(v, a + b) + Weight(v, w)
  {
    TotalAppend(v, a + [w], b);
    TotalAppend(v, a, b);
    assert (a + [w])[..|a|] == a;
  }

  ghost function Elements(s: seq<Worker>): set<Worker> { set w | w in s }

  lemma NonEmptyElements(s: seq<Worker>)
    ensures s != [] ==> Elements(s) != {}
  {
    if s != [] { assert s[0] in Elements(s); }
  }

  lemma ElementsAppend(s: seq<Worker>, w: Worker)
    ensures Elements(s + [w]) == Elements(s) + {w}
  {
  }

  lemma ElementsAround(a: seq<Worker>, w: Worker, b: seq<Worker>)
    requires Distinct(a + [w] + b)
    ensures Distinct(a + b) && Elements(a + b) == Elements(a + [w] + b) - {w}
  {
    var s := a + [w] + b;
    forall i | 0 <= i < |a + b| ensures (a + b)[i] == s[if i < |a| then i else i + 1] {}
    assert s[|a|] == w;
    assert forall x :: x in s <==> x in a + b || x == w;
    assert w !in a + b;
  }

  /** The total does not depend on the order in which the workers are visited. */
  lemma {:induction false} TotalOfPermutation(v: View, a: seq<Worker>, b: seq<Worker>)
    requires Distinct(a) && Distinct(b) && Elements(a) == Elements(b)
    ensures Total(v, a) == Total(v, b)
  {
    if a == [] {
      NonEmptyElements(b);
    } else {
      var front, w := a[..|a| - 1], a[|a| - 1];
      assert w in Elements(b);
      var i :| 0 <= i < |b| && b[i] == w;
      assert a == front + [w] + [] && front + [] == front;
      assert b == b[..i] + [w] + b[i + 1..];
      ElementsAround(front, w, []);
      ElementsAround(b[..i], w, b[i + 1..]);
      TotalOfPermutation(v, front, b[..i] + b[i + 1..]);
      TotalAround(v, b[..i], w, b[i + 1..]);
    }
  }

  lemma {:induction false} TotalZero(v: View, ignore: set<Worker>, list: seq<Worker>)
    ensures Total(v, Candidates(v, ignore, list)) == 0.0
            <==> forall w :: w in list && Candidate(v, ignore, w) ==> v.load(w) >= 1.0
  {
    if list != [] {
      var front, last := list[..|list| - 1], list[|list| - 1];
      TotalZero(v, ignore, front);
      assert forall w :: w in list <==> w in front || w == last;
      var rest := Candidates(v, ignore, front);
      if Candidate(v, ignore, last) { assert (rest + [last])[..|rest|] == rest; }
    }
  }

  lemma {:induction false} CandidatesAre(v: View, ignore: set<Worker>, list: seq<Worker>)
    ensures Elements(Candidates(v, ignore, list)) == set w | w in list && Candidate(v, ignore, w)
    ensures Distinct(list) ==> Distinct(Candidates(v, ignore, list))
  {
    if list != [] {
      var front, last := list[..|list| - 1], list[|list| - 1];
      CandidatesAre(v, ignore, front);
      var rest := Candidates(v, ignore, front);
      ElementsAppend(rest, last);
      assert forall w :: w in list <==> w in front || w == last;
      assert Distinct(list) ==> last !in front;
      assert last in rest ==> last in Elements(rest);
    }
  }

  lemma OneMoreCandidate(v: View, ignore: set<Worker>, list: seq<Worker>, i: nat)
    requires i < |list|
    ensures var before, next := Candidates(v, ignore, list[..i]), Candidates(v, ignore, list[..i + 1]);
            if Candidate(v, ignore, list[i])
            then Total(v, next) == Total(v, before) + Weight(v, list[i]) && Elements(next) == Elements(before) + {list[i]}
            else next == before
  {
    assert list[..i + 1][..i] == list[..i];
    var before := Candidates(v, ignore, list[..i]);
    assert (before + [list[i]])[..|before|] == before;
    ElementsAppend(before, list[i]);
  }

  /** How the random point depends on the sum: it always lies in [0, sum). */
  ghost predicate Draw(point: real -> real) {
    forall sum :: sum > 0.0 ==> 0.0 <= point(sum) < sum
  }

  function Scaled(random: real): real -> real { sum => random * sum }

  lemma ScaledBelow(random: real, sum: real, point: real)
    requires 0.0 <= random < 1.0 && sum > 0.0 && point == random * sum
    ensures 0.0 <= point < sum
  {
  }

  /** A random number in [0, 1) times the sum is such a point. */
  lemma ScaledIsDraw(random: real)
    requires 0.0 <= random < 1.0
    ensures Draw(Scaled(random))
  {
    forall sum | sum > 0.0 ensures 0.0 <= Scaled(random)(sum) < sum {
      ScaledBelow(random, sum, Scaled(random)(sum));
    }
  }

  datatype Selection = NoWorkers | NoCapacity | Selected(worker: Worker)

  /** The weights of the candidates, and their sum. */
  method NormalizedLoads(list: seq<Worker>, ignore: set<Worker>, v: View)
    returns (loads: map<Worker, real>, sum: real)
    ensures sum == Total(v, Candidates(v, ignore, list))
    ensures loads.Keys == Elements(Candidates(v, ignore, list))
    ensures forall w :: w in loads ==> loads[w] == Weight(v, w)
  {
    loads, sum := map[], 0.0;
    for i := 0 to |list|
      invariant sum == Total(v, Candidates(v, ignore, list[..i]))
      invariant loads.Keys == Elements(Candidates(v, ignore, list[..i]))
      invariant forall w :: w in loads ==> loads[w] == Weight(v, w)
    {
      OneMoreCandidate(v, ignore, list, i);
      if list[i] !in ignore && v.available(list[i]) {
        loads := loads[list[i] := if 1.0 - v.load(list[i]) > 0.0 then 1.0 - v.load(list[i]) else 0.0];
        sum := sum + loads[list[i]];
      }
    }
    assert list[..|list|] == list;
  }

  /** Counting down from the point along `order`: the worker whose weight uses it up. */
  function Visit(v: View, order: seq<Worker>, point: real): Option<Worker> {
    if order == [] then None
    else if point - Weight(v, order[0]) <= 0.0 then Some(order[0])
    else Visit(v, order[1..], point - Weight(v, order[0]))
  }

  lemma {:induction false} VisitAppend(v: View, s: seq<Worker>, w: Worker, point: real)
    requires Visit(v, s, point) == None
    ensures Visit(v, s + [w], point) == if point <= Total(v, s) + Weight(v, w) then Some(w) else None
    ensures s != [] ==> point > Total(v, s)
  {
    if s == [] {
      assert s + [w] == [w];
    } else {
      VisitAppend(v, s[1..], w, point - Weight(v, s[0]));
      assert (s + [w])[1..] == s[1..] + [w];
      TotalFirst(v, s);
    }
  }

  lemma TotalFirst(v: View, s: seq<Worker>)
    requires s != []
    ensures Total(v, s) == Weight(v, s[0]) + Total(v, s[1..])
  {
    assert s == [s[0]] + s[1..] && [s[0]][..0] == [];
    TotalAppend(v, [s[0]], s[1..]);
  }

  /** The worker found has spare capacity exactly when the point is positive or the worker
      visited first has some. */
  lemma {:induction false} CapacityOfFound(v: View, order: seq<Worker>, point: real)
    requires point >= 0.0 && Visit(v, order, point).Some?
    ensures order != []
    ensures v.load(Visit(v, order, point).value) < 1.0 <==> point > 0.0 || v.load(order[0]) < 1.0
  {
    if point - Weight(v, order[0]) > 0.0 {
      CapacityOfFound(v, order[1..], point - Weight(v, order[0]));
    }
  }

  /** A point below the sum is used up, so with the candidates in any order this is exactly when
      the choice has spare capacity. */
  lemma {:induction false} CapacityIffPositiveOrFirst(v: View, order: seq<Worker>, point: real)
    requires order != [] && 0.0 <= point < Total(v, order)
    ensures Visit(v, order, point).Some?
    ensures v.load(Visit(v, order, point).value) < 1.0 <==> point > 0.0 || v.load(order[0]) < 1.0
  {
    PointIsUsedUp(v, order, point);
    CapacityOfFound(v, order, point);
  }

  lemma {:induction false} PointIsUsedUp(v: View, order: seq<Worker>, point: real)
    requires order != [] && 0.0 <= point < Total(v, order)
    ensures Visit(v, order, point).Some?
  {
    TotalFirst(v, order);
    if point - Weight(v, order[0]) > 0.0 { PointIsUsedUp(v, order[1..], point - Weight(v, order[0])); }
  }

  /** What a worker can still take. */
  function Spare(v: View, w: Worker): real {
    if v.load(w) < 1.0 then 1.0 - v.load(w) else 0.0
  }

  function SpareOf(v: View, s: seq<Worker>): real {
    if s == [] then 0.0 else SpareOf(v, s[..|s| - 1]) + Spare(v, s[|s| - 1])
  }

  lemma {:induction false} TotalIsSpare(v: View, s: seq<Worker>)
    ensures Total(v, s) == SpareOf(v, s)
  {
    if s != [] { TotalIsSpare(v, s[..|s| - 1]); }
  }

  /** So with a point spread evenly over the whole, each candidate is taken with the share that its
      spare capacity has: worker `i` exactly for the points above what those before it can take together
      and up to its own spare capacity more, and the first one for zero too. */
  lemma {:induction false} TakenIffInStretch(v: View, order: seq<Worker>, i: nat, point: real)
    requires Distinct(order) && i < |order| && point >= 0.0
    ensures Visit(v, order, point) == Some(order[i])
            <==> (i == 0 || SpareOf(v, order[..i]) < point) && point <= SpareOf(v, order[..i]) + Spare(v, order[i])
  {
    var first, rest := order[0], order[1..];
    if i == 0 {
      assert order[..0] == [];
      if point > Spare(v, first) { VisitFinds(v, rest, point - Weight(v, first)); }
    } else {
      assert rest[i - 1] == order[i] && order[..i][1..] == rest[..i - 1] && order[..i][0] == first;
      TotalFirst(v, order[..i]);
      TotalIsSpare(v, order[..i]);
      TotalIsSpare(v, rest[..i - 1]);
      if point - Weight(v, first) > 0.0 { TakenIffInStretch(v, rest, i - 1, point - Weight(v, first)); }
    }
  }

  lemma {:induction false} VisitFinds(v: View, order: seq<Worker>, point: real)
    ensures Visit(v, order, point).Some? ==> Visit(v, order, point).value in order
  {
    if order != [] { VisitFinds(v, order[1..], point - Weight(v, order[0])); }
  }

  /** The second case happens: a point of zero takes the first worker though it is full. */
  lemma ZeroPointTakesFullWorker()
    ensures var full, idle := Worker(1), Worker(2);
            var v := View(w => true, w => if w == full then 1.0 else 0.0);
            && Total(v, [full, idle]) == 1.0
            && Visit(v, [full, idle], 0.0) == Some(full) && v.load(full) == 1.0 && v.load(idle) == 0.0
  {
    var full, idle := Worker(1), Worker(2);
    var v := View(w => true, w => if w == full then 1.0 else 0.0);
    TotalFirst(v, [full, idle]);
    TotalFirst(v, [idle]);
    assert [full, idle][1..] == [idle] && [idle][1..] == [];
  }

  /** The point falls in the stretch of the last worker visited. */
  ghost predicate FallsAt(v: View, candidates: seq<Worker>, visited: seq<Worker>, w: Worker, point: real) {
    && visited != [] && visited[|visited| - 1] == w
    && Distinct(visited) && Elements(visited) <= Elements(candidates)
    && point <= Total(v, visited)
    && (|visited| > 1 ==> point > Total(v, visited[..|visited| - 1]))
  }

  lemma DistinctAppend(s: seq<Worker>, w: Worker)
    requires Distinct(s) && w !in Elements(s)
    ensures Distinct(s + [w])
  {
    forall i | 0 <= i < |s| ensures s[i] != w { assert s[i] in Elements(s); }
  }

  /** Part of the candidates has been visited and the point is not used up. */
  ghost predicate Visiting(v: View, all: set<Worker>, visited: seq<Worker>, remaining: set<Worker>, point: real, current: real) {
    && Distinct(visited) && remaining !! Elements(visited) && remaining + Elements(visited) == all
    && current == point - Total(v, visited)
    && Visit(v, visited, point) == None
  }

  /** One round of the visit: it goes on, or stops at the worker. */
  lemma VisitOneMore(v: View, candidates: seq<Worker>, visited: seq<Worker>, remaining: set<Worker>, point: real, current: real, w: Worker)
    requires Visiting(v, Elements(candidates), visited, remaining, point, current) && w in remaining
    ensures current > Weight(v, w) ==>
              Visiting(v, Elements(candidates), visited + [w], remaining - {w}, point, current - Weight(v, w))
    ensures current <= Weight(v, w) ==>
              Visit(v, visited + [w], point) == Some(w) && FallsAt(v, candidates, visited + [w], w, point)
  {
    VisitAppend(v, visited, w, point);
    DistinctAppend(visited, w);
    ElementsAppend(visited, w);
    assert (visited + [w])[..|visited|] == visited;
  }

  /** The visit of the weights in any order; None when they are used up before the point. */
  method VisitLoads(loads: map<Worker, real>, point: real, ghost v: View, ghost candidates: seq<Worker>)
    returns (r: Option<Worker>, ghost visited: seq<Worker>)
    requires loads.Keys == Elements(candidates) && forall w :: w in loads ==> loads[w] == Weight(v, w)
    ensures r == Visit(v, visited, point)
    ensures r.Some? ==> r.value in loads && FallsAt(v, candidates, visited, r.value, point)
    ensures r.None? ==> Distinct(visited) && Elements(visited) == loads.Keys
  {
    visited := [];
    var current, remaining := point, loads.Keys;
    while remaining != {}
      invariant Visiting(v, loads.Keys, visited, remaining, point, current)
      decreases remaining
    {
      var w :| w in remaining;
      VisitOneMore(v, candidates, visited, remaining, point, current, w);
      remaining := remaining - {w};
      current := current - loads[w];
      visited := visited + [w];
      if current <= 0.0 {
        return Some(w), visited;
      }
    }
    r := None;
  }

  /** selectWorkerWeightedByLoad for the list kept under the key.  Visiting the candidates in
      any order, it returns the one in whose stretch of the summed weights the random point
      falls, so each is chosen with the share its spare capacity has of the whole. */
  method SelectWorkerWeightedByLoad(list: seq<Worker>, ignore: set<Worker>, v: View, draw: real -> real)
    returns (r: Selection, ghost visited: seq<Worker>)
    requires Draw(draw)
    ensures r.NoWorkers? <==> list == []
    ensures r.NoCapacity? <==> list != [] && forall w :: w in list && w !in ignore && v.available(w) ==> v.load(w) >= 1.0
    ensures r.Selected? ==> r.worker in list
    ensures r.Selected? && Distinct(list) ==> r.worker !in ignore && v.available(r.worker)
    ensures r.Selected? && Distinct(list) ==>
              var candidates := Candidates(v, ignore, list);
              var point := draw(Total(v, candidates));
              && FallsAt(v, candidates, visited, r.worker, point)
              && Visit(v, visited, point) == Some(r.worker)
              && (v.load(r.worker) < 1.0 <==> point > 0.0 || v.load(visited[0]) < 1.0)
  {
    visited := [];
    if |list| == 0 {
      return NoWorkers, visited;
    }
    ghost var candidates := Candidates(v, ignore, list);
    var loads, sum := NormalizedLoads(list, ignore, v);
    TotalZero(v, ignore, list);
    CandidatesAre(v, ignore, list);
    if sum == 0.0 {
      return NoCapacity, visited;
    }
    var point := draw(sum);
    var found;
    found, visited := VisitLoads(loads, point, v, candidates);
    if found.Some? {
      CapacityOfFound(v, visited, point);
      return Selected(found.value), visited;
    }
    if Distinct(list) {
      TotalOfPermutation(v, visited, candidates);
      NonEmptyElements(candidates);
      PointIsUsedUp(v, visited, point);
      assert false;
    }
    return Selected(list[0]), visited;
  }

  // ------------------------------------------------------------- dispatch

  /** What AssignJob comes back with; `retry` for ErrWorkerNotAvailable and ErrWorkerClosed. */
  datatype Outcome = Running | Success | Refused(retry: bool)

  /** What one attempt meets: the list under the key, the reports, the random point and the answers. */
  datatype Round = Round(list: seq<Worker>, view: View, draw: real -> real, answer: Worker -> Outcome)

  datatype Dispatch = Assigned(worker: Worker) | Failed(worker: Worker) | Exhausted

  /** A worker in the list that could still take the job. */
  ghost predicate Capable(round: Round, attempted: set<Worker>, w: Worker) {
    w in round.list && w !in attempted && round.view.available(w) && round.view.load(w) < 1.0
  }

  /** Every worker asked refused in a way that is retried. */
  ghost predicate AllRefused(rounds: nat -> Round, asked: seq<Worker>) {
    forall i :: 0 <= i < |asked| ==> rounds(i).answer(asked[i]) == Refused(true)
  }

  ghost predicate AllAvailable(rounds: nat -> Round, asked: seq<Worker>) {
    forall i :: 0 <= i < |asked| ==> asked[i] in rounds(i).list && rounds(i).view.available(asked[i])
  }

  ghost predicate EndsAt(rounds: nat -> Round, asked: seq<Worker>, w: Worker, answer: Outcome) {
    && asked != [] && asked[|asked| - 1] == w
    && AllRefused(rounds, asked[..|asked| - 1])
    && rounds(|asked| - 1).answer(w) == answer
  }

  /** Nobody is asked twice, and each of those asked was listed and available. */
  ghost predicate Asked(rounds: nat -> Round, asked: seq<Worker>, all: set<Worker>) {
    && Distinct(asked) && AllAvailable(rounds, asked)
    && Elements(asked) <= all && |Elements(asked)| == |asked|
  }

  ghost predicate Offers(rounds: nat -> Round, all: set<Worker>) {
    forall i :: Draw(rounds(i).draw) && Distinct(rounds(i).list) && Elements(rounds(i).list) <= all
  }

  lemma AvailableAppend(rounds: nat -> Round, asked: seq<Worker>, w: Worker)
    requires AllAvailable(rounds, asked) && w in rounds(|asked|).list && rounds(|asked|).view.available(w)
    ensures AllAvailable(rounds, asked + [w])
  {
  }

  lemma RefusedAppend(rounds: nat -> Round, asked: seq<Worker>, w: Worker)
    requires AllRefused(rounds, asked)
    ensures EndsAt(rounds, asked + [w], w, rounds(|asked|).answer(w))
    ensures rounds(|asked|).answer(w) == Refused(true) ==> AllRefused(rounds, asked + [w])
  {
    assert (asked + [w])[..|asked + [w]| - 1] == asked;
  }

  lemma AskOneMore(rounds: nat -> Round, asked: seq<Worker>, w: Worker, all: set<Worker>)
    requires Offers(rounds, all) && Asked(rounds, asked, all)
    requires w !in Elements(asked) && w in rounds(|asked|).list && rounds(|asked|).view.available(w)
    ensures Asked(rounds, asked + [w], all) && Elements(asked + [w]) == Elements(asked) + {w}
    ensures all - Elements(asked + [w]) < all - Elements(asked)
  {
    AvailableAppend(rounds, asked, w);
    ElementsAppend(asked, w);
    DistinctAppend(asked, w);
    var listed := Elements(rounds(|asked|).list);
    assert w in listed && listed <= all;
  }

  lemma AskedAtMostAll(rounds: nat -> Round, asked: seq<Worker>, all: set<Worker>)
    requires Asked(rounds, asked, all)
    ensures |asked| <= |all|
  {
    SubsetSize(Elements(asked), all);
  }

  ghost predicate Ended(r: Dispatch, rounds: nat -> Round, asked: seq<Worker>) {
    match r
    case Assigned(w) => EndsAt(rounds, asked, w, Running) || EndsAt(rounds, asked, w, Success)
    case Failed(w) => EndsAt(rounds, asked, w, Refused(false))
    case Exhausted => AllRefused(rounds, asked) && !exists w :: Capable(rounds(|asked|), Elements(asked), w)
  }

  datatype JobId = JobId(text: string)

  class JobDispatcher {
    var jobToWorker: map<JobId, Worker>

    constructor ()
      ensures jobToWorker == map[]
    {
      jobToWorker := map[];
    }

    /** JobRequest.  The lock is released between attempts, so the list and the reports may
        differ from one to the next; as long as the workers come from one finite set, the loop
        ends within their number, never asks a worker twice, and gives up for lack of capacity
        only when every worker that has some was asked. */
    method JobRequest(job: JobId, rounds: nat -> Round, ghost all: set<Worker>)
      returns (r: Dispatch, asked: seq<Worker>)
      requires Offers(rounds, all)
      modifies this
      ensures Asked(rounds, asked, all) && |asked| <= |all|
      ensures Ended(r, rounds, asked)
      ensures jobToWorker == if r.Assigned? && EndsAt(rounds, asked, r.worker, Running)
                             then old(jobToWorker)[job := r.worker] else old(jobToWorker)
    {
      var attempted: set<Worker>;
      attempted, asked := {}, [];
      while true
        invariant attempted == Elements(asked) && Asked(rounds, asked, all) && AllRefused(rounds, asked)
        invariant jobToWorker == old(jobToWorker)
        decreases all - attempted
      {
        var round := rounds(|asked|);
        var selection, _ := SelectWorkerWeightedByLoad(round.list, attempted, round.view, round.draw);
        if !selection.Selected? {
          AskedAtMostAll(rounds, asked, all);
          return Exhausted, asked;
        }
        var w := selection.worker;
        AskOneMore(rounds, asked, w, all);
        RefusedAppend(rounds, asked, w);
        AskedAtMostAll(rounds, asked + [w], all);
        attempted, asked := attempted + {w}, asked + [w];
        match round.answer(w) {
          case Running =>
            jobToWorker := jobToWorker[job := w];
            return Assigned(w), asked;
          case Success =>
            return Assigned(w), asked;
          case Refused(retry) =>
            if !retry {
              return Failed(w), asked;
            }
        }
      }
    }
  }
}
