/**
 The registry of agent workers of pkg/service/agentservice.go: per worker key a list of
 workers, and beside it incremental counters and sorted name lists that must agree with it.
 A key is the struct of agent name, namespace, job type and deployment.

 Each locked region is one step.  A run also counts, apart from the registry, how often each
 worker was registered and not yet deregistered; the lists and all that is derived from
 them are compared with these counts.
 */
module AgentRegistry {
  import opened Names
  import opened Wrappers

  datatype JobType = Room | Publisher | Participant | OtherJob(code: int)

  datatype WorkerKey = WorkerKey(agentName: Name, namespace: Name, jobType: JobType, deployment: Name)

  /** A connected worker; `handle` is its identity as an object. */
  datatype Worker = Worker(handle: int, key: WorkerKey)

  datatype Registry = Registry(
    workers: map<WorkerKey, seq<Worker>>,
    roomKeys: int,
    publisherKeys: int,
    participantKeys: int,
    namespaces: seq<Name>,
    agentNames: seq<Name>)

  const EmptyRegistry := Registry(map[], 0, 0, 0, [], [])

  function CountKey(r: Registry, jobType: JobType, delta: int): Registry {
    match jobType
    case Room => r.(roomKeys := r.roomKeys + delta)
    case Publisher => r.(publisherKeys := r.publisherKeys + delta)
    case Participant => r.(participantKeys := r.participantKeys + delta)
    case OtherJob(_) => r
  }

  function ListOf(r: Registry, k: WorkerKey): seq<Worker> {
    if k in r.workers then r.workers[k] else []
  }

  /** registerWorker; the topic is registered only for the first worker of a key. */
  function Register(r: Registry, w: Worker, topicFails: bool): Registry {
    var list := ListOf(r, w.key);
    if list == [] && topicFails then r
    else
      var counted := if list != [] then r
                     else CountKey(r, w.key.jobType, 1).(namespaces := Insert(r.namespaces, w.key.namespace),
                                                        agentNames := Insert(r.agentNames, w.key.agentName));
      counted.(workers := r.workers[w.key := list + [w]])
  }

  /** slices.Index */
  function Index(list: seq<Worker>, w: Worker): (i: int)
    ensures -1 <= i < |list|
    ensures i >= 0 ==> list[i] == w && w !in list[..i]
    ensures i < 0 ==> w !in list
  {
    if list == [] then -1
    else if list[0] == w then 0
    else
      var i := Index(list[1..], w);
      if i < 0 then -1 else i + 1
  }

  /** deregisterWorker */
  function Deregister(r: Registry, w: Worker): Registry {
    var list := ListOf(r, w.key);
    var i := Index(list, w);
    if i < 0 then r
    else if |list| > 1 then r.(workers := r.workers[w.key := Without(list, i)])
    else CountKey(r, w.key.jobType, -1).(workers := r.workers - {w.key},
                                         namespaces := Remove(r.namespaces, w.key.namespace),
                                         agentNames := Remove(r.agentNames, w.key.agentName))
  }

  /** CheckEnabledResponse */
  datatype Enabled = Enabled(namespaces: seq<Name>, agentNames: seq<Name>, room: bool, publisher: bool, participant: bool)

  function AnswerOf(r: Registry): Enabled {
    Enabled(Compact(r.namespaces), Compact(r.agentNames), r.roomKeys != 0, r.publisherKeys != 0, r.participantKeys != 0)
  }

  // ---------------------------------------------------------------- runs

  datatype Event = Registers(w: Worker, topicFails: bool) | Deregisters(w: Worker)

  /** `live` counts the registrations not yet undone: all but those that found no live worker of their
      key and whose topic could not be registered. */
  datatype System = System(registry: Registry, live: multiset<Worker>)

  predicate HasLive(live: multiset<Worker>, k: WorkerKey) { exists w :: w in live && w.key == k }

  function Step(y: System, e: Event): System {
    match e
    case Registers(w, topicFails) =>
      System(Register(y.registry, w, topicFails),
             if topicFails && !HasLive(y.live, w.key) then y.live else y.live + multiset{w})
    case Deregisters(w) => System(Deregister(y.registry, w), y.live - multiset{w})
  }

  const Start := System(EmptyRegistry, multiset{})

  function Run(y: System, es: seq<Event>): System {
    if es == [] then y else Step(Run(y, es[..|es| - 1]), es[|es| - 1])
  }

  // ------------------------------------------------------------ invariant

  /** The two attributes whose values the registry keeps in a sorted list. */
  datatype Attribute = Namespace | AgentName

  function NameOf(k: WorkerKey, attribute: Attribute): Name {
    if attribute == Namespace then k.namespace else k.agentName
  }

  function KeysOfJob(keys: set<WorkerKey>, j: JobType): set<WorkerKey> { set k | k in keys && k.jobType == j }
  function KeysNamed(keys: set<WorkerKey>, attribute: Attribute, n: Name): set<WorkerKey> { set k | k in keys && NameOf(k, attribute) == n }

  /** The counters are those recomputed from the keys. */
  ghost predicate CountersExact(r: Registry) {
    && r.roomKeys == |KeysOfJob(r.workers.Keys, Room)|
    && r.publisherKeys == |KeysOfJob(r.workers.Keys, Publisher)|
    && r.participantKeys == |KeysOfJob(r.workers.Keys, Participant)|
  }

  /** The list is sorted and holds each name once for every key that has it. */
  ghost predicate Tallies(list: seq<Name>, keys: set<WorkerKey>, attribute: Attribute) {
    Sorted(list) && forall n :: multiset(list)[n] == |KeysNamed(keys, attribute, n)|
  }

  ghost predicate NamesExact(r: Registry) {
    Tallies(r.namespaces, r.workers.Keys, Namespace) && Tallies(r.agentNames, r.workers.Keys, AgentName)
  }

  function Held(workers: map<WorkerKey, seq<Worker>>, w: Worker): nat {
    if w.key in workers then multiset(workers[w.key])[w] else 0
  }

  ghost predicate ListsExact(y: System) {
    && (forall k :: k in y.registry.workers ==> y.registry.workers[k] != [])
    && (forall k, w :: k in y.registry.workers && w in y.registry.workers[k] ==> w.key == k)
    && (forall w :: y.live[w] == Held(y.registry.workers, w))
  }

  ghost predicate Inv(y: System) {
    CountersExact(y.registry) && NamesExact(y.registry) && ListsExact(y)
  }

  /** Adding one key moves the recomputed numbers by one where the key has the value. */
  lemma NewKeyOfJob(keys: set<WorkerKey>, key: WorkerKey, j: JobType)
    requires key !in keys
    ensures |KeysOfJob(keys + {key}, j)| == |KeysOfJob(keys, j)| + if key.jobType == j then 1 else 0
  {
    assert KeysOfJob(keys + {key}, j) == KeysOfJob(keys, j) + if key.jobType == j then {key} else {};
  }

  lemma NewKeyNamed(keys: set<WorkerKey>, key: WorkerKey, attribute: Attribute, n: Name)
    requires key !in keys
    ensures |KeysNamed(keys + {key}, attribute, n)| == |KeysNamed(keys, attribute, n)| + if NameOf(key, attribute) == n then 1 else 0
  {
    assert KeysNamed(keys + {key}, attribute, n) == KeysNamed(keys, attribute, n) + if NameOf(key, attribute) == n then {key} else {};
  }

  lemma InsertTallies(list: seq<Name>, keys: set<WorkerKey>, key: WorkerKey, attribute: Attribute)
    requires Tallies(list, keys, attribute) && key !in keys
    ensures Tallies(Insert(list, NameOf(key, attribute)), keys + {key}, attribute)
  {
    InsertSorts(list, NameOf(key, attribute));
    forall n ensures multiset(Insert(list, NameOf(key, attribute)))[n] == |KeysNamed(keys + {key}, attribute, n)| {
      NewKeyNamed(keys, key, attribute, n);
    }
  }

  lemma RemoveTallies(list: seq<Name>, keys: set<WorkerKey>, key: WorkerKey, attribute: Attribute)
    requires Tallies(list, keys + {key}, attribute) && key !in keys
    ensures Tallies(Remove(list, NameOf(key, attribute)), keys, attribute)
  {
    RemoveKeepsSorted(list, NameOf(key, attribute));
    forall n ensures multiset(Remove(list, NameOf(key, attribute)))[n] == |KeysNamed(keys, attribute, n)| {
      NewKeyNamed(keys, key, attribute, n);
    }
  }

  lemma RegisterKeepsDerived(r: Registry, w: Worker, topicFails: bool)
    requires CountersExact(r) && NamesExact(r) && forall k :: k in r.workers ==> r.workers[k] != []
    ensures var s := Register(r, w, topicFails); CountersExact(s) && NamesExact(s)
  {
    var s, keys := Register(r, w, topicFails), r.workers.Keys;
    if w.key in r.workers {
      assert s.workers.Keys == keys;
    } else if !topicFails {
      assert s.workers.Keys == keys + {w.key};
      NewKeyOfJob(keys, w.key, Room);
      NewKeyOfJob(keys, w.key, Publisher);
      NewKeyOfJob(keys, w.key, Participant);
      InsertTallies(r.namespaces, keys, w.key, Namespace);
      InsertTallies(r.agentNames, keys, w.key, AgentName);
    }
  }

  lemma DeregisterKeepsDerived(r: Registry, w: Worker)
    requires CountersExact(r) && NamesExact(r)
    ensures var s := Deregister(r, w); CountersExact(s) && NamesExact(s)
  {
    var s, list := Deregister(r, w), ListOf(r, w.key);
    var keys := s.workers.Keys;
    if Index(list, w) >= 0 {
      if |list| > 1 {
        assert keys == r.workers.Keys;
      } else {
        assert r.workers.Keys == keys + {w.key};
        NewKeyOfJob(keys, w.key, Room);
        NewKeyOfJob(keys, w.key, Publisher);
        NewKeyOfJob(keys, w.key, Participant);
        RemoveTallies(r.namespaces, keys, w.key, Namespace);
        RemoveTallies(r.agentNames, keys, w.key, AgentName);
      }
    }
  }

  lemma WithoutDropsOne(list: seq<Worker>, i: nat)
    requires i < |list|
    ensures multiset(Without(list, i)) == multiset(list) - multiset{list[i]}
    ensures forall w :: w in Without(list, i) ==> w in list
  {
    assert list == list[..i] + [list[i]] + list[i + 1..];
  }

  lemma RegisterKeepsLists(y: System, w: Worker, topicFails: bool)
    requires ListsExact(y)
    ensures ListsExact(Step(y, Registers(w, topicFails)))
  {
    var r, z := y.registry, Step(y, Registers(w, topicFails));
    var list := ListOf(r, w.key);
    LiveKeys(y, w.key);
    if list != [] || !topicFails {
      assert z.registry.workers == r.workers[w.key := list + [w]];
      assert |ListOf(z.registry, w.key)| > |list|;
      forall x ensures z.live[x] == Held(z.registry.workers, x) {
        if x.key == w.key { assert multiset(list + [w])[x] == multiset(list)[x] + multiset{w}[x]; }
      }
    }
  }

  lemma RemovalKeepsLists(y: System, w: Worker, i: nat)
    requires ListsExact(y) && w.key in y.registry.workers
    requires i == Index(y.registry.workers[w.key], w) && |y.registry.workers[w.key]| > 1
    ensures ListsExact(Step(y, Deregisters(w)))
  {
    var workers, z := y.registry.workers, Step(y, Deregisters(w));
    var list := workers[w.key];
    var rest := Without(list, i);
    WithoutDropsOne(list, i);
    assert z.registry.workers == workers[w.key := rest];
    assert w in multiset(list);
    forall x ensures z.live[x] == Held(z.registry.workers, x) {
      assert y.live[x] == Held(workers, x) && y.live[w] == Held(workers, w);
      if x.key == w.key { assert multiset(rest)[x] == (multiset(list) - multiset{w})[x]; }
    }
  }

  lemma LastRemovalKeepsLists(y: System, w: Worker)
    requires ListsExact(y) && w.key in y.registry.workers
    requires y.registry.workers[w.key] == [w]
    ensures ListsExact(Step(y, Deregisters(w)))
  {
    var workers, z := y.registry.workers, Step(y, Deregisters(w));
    assert z.registry.workers == workers - {w.key};
    forall x ensures z.live[x] == Held(z.registry.workers, x) {
      assert y.live[x] == Held(workers, x);
      if x.key == w.key { assert multiset([w])[x] == multiset{w}[x]; }
    }
  }

  lemma DeregisterKeepsLists(y: System, w: Worker)
    requires ListsExact(y)
    ensures ListsExact(Step(y, Deregisters(w)))
  {
    var list := ListOf(y.registry, w.key);
    var i := Index(list, w);
    if i < 0 {
      assert w !in multiset(list);
      assert y.live[w] == Held(y.registry.workers, w) == 0;
      assert y.live - multiset{w} == y.live;
    } else if |list| > 1 {
      RemovalKeepsLists(y, w, i);
    } else {
      assert list == [w];
      LastRemovalKeepsLists(y, w);
    }
  }

  lemma {:induction false} RunKeepsInv(y: System, es: seq<Event>)
    requires Inv(y)
    ensures Inv(Run(y, es))
  {
    if es != [] {
      RunKeepsInv(y, es[..|es| - 1]);
      var z, e := Run(y, es[..|es| - 1]), es[|es| - 1];
      match e
      case Registers(w, topicFails) =>
        RegisterKeepsDerived(z.registry, w, topicFails);
        RegisterKeepsLists(z, w, topicFails);
      case Deregisters(w) =>
        DeregisterKeepsDerived(z.registry, w);
        DeregisterKeepsLists(z, w);
    }
  }

  lemma StartInv()
    ensures Inv(Start)
  {
    assert forall j :: KeysOfJob({}, j) == {};
    assert forall attribute, n :: KeysNamed({}, attribute, n) == {};
  }

  // -------------------------------------------------------- main results

  /** After any registrations and deregistrations the counters and the sorted name lists equal
      those recomputed from the keys that have workers. */
  lemma {:induction false} DerivedEqualsRecomputed(es: seq<Event>)
    ensures CountersExact(Run(Start, es).registry) && NamesExact(Run(Start, es).registry)
  {
    StartInv();
    RunKeepsInv(Start, es);
  }

  /** A key has a list exactly while a worker with that key is live. */
  lemma LiveKeys(y: System, k: WorkerKey)
    requires ListsExact(y)
    ensures k in y.registry.workers <==> exists w :: w in y.live && w.key == k
  {
    if k in y.registry.workers {
      var w := y.registry.workers[k][0];
      assert w in y.registry.workers[k];
      assert w.key == k && w in multiset(y.registry.workers[k]);
      assert y.live[w] == Held(y.registry.workers, w);
    }
    if w :| w in y.live && w.key == k {
      assert Held(y.registry.workers, w) > 0;
    }
  }

  lemma JobLive(y: System, j: JobType)
    requires ListsExact(y)
    ensures |KeysOfJob(y.registry.workers.Keys, j)| != 0 <==> exists w :: w in y.live && w.key.jobType == j
  {
    var keys := KeysOfJob(y.registry.workers.Keys, j);
    if w :| w in y.live && w.key.jobType == j {
      LiveKeys(y, w.key);
      assert w.key in keys;
    }
    if |keys| != 0 {
      var k :| k in keys;
      LiveKeys(y, k);
    }
  }

  lemma NameLive(y: System, attribute: Attribute, n: Name)
    requires ListsExact(y)
    ensures |KeysNamed(y.registry.workers.Keys, attribute, n)| != 0 <==> exists w :: w in y.live && NameOf(w.key, attribute) == n
  {
    var keys := KeysNamed(y.registry.workers.Keys, attribute, n);
    if w :| w in y.live && NameOf(w.key, attribute) == n {
      LiveKeys(y, w.key);
      assert w.key in keys;
    }
    if |keys| != 0 {
      var k :| k in keys;
      LiveKeys(y, k);
    }
  }

  /** A compacted list lists, in order and once, the names of the live workers. */
  ghost predicate ListsLiveNames(list: seq<Name>, y: System, attribute: Attribute) {
    StrictlySorted(list) && forall n :: n in list <==> exists w :: w in y.live && NameOf(w.key, attribute) == n
  }

  lemma CompactListsLiveNames(list: seq<Name>, y: System, attribute: Attribute)
    requires ListsExact(y) && Tallies(list, y.registry.workers.Keys, attribute)
    ensures ListsLiveNames(Compact(list), y, attribute)
  {
    CompactIsDistinct(list);
    forall n ensures n in Compact(list) <==> exists w :: w in y.live && NameOf(w.key, attribute) == n {
      assert n in list <==> multiset(list)[n] != 0;
      NameLive(y, attribute, n);
    }
  }

  /** CheckEnabled answers with exactly the distinct namespaces and agent names of the live
      workers, sorted, and with exactly the job types that have one. */
  lemma {:induction false} CheckEnabledIsExact(es: seq<Event>)
    ensures var y := Run(Start, es);
            var enabled := AnswerOf(y.registry);
            && ListsLiveNames(enabled.namespaces, y, Namespace)
            && ListsLiveNames(enabled.agentNames, y, AgentName)
            && (enabled.room <==> exists w :: w in y.live && w.key.jobType == Room)
            && (enabled.publisher <==> exists w :: w in y.live && w.key.jobType == Publisher)
            && (enabled.participant <==> exists w :: w in y.live && w.key.jobType == Participant)
  {
    StartInv();
    RunKeepsInv(Start, es);
    var y := Run(Start, es);
    CompactListsLiveNames(y.registry.namespaces, y, Namespace);
    CompactListsLiveNames(y.registry.agentNames, y, AgentName);
    JobLive(y, Room);
    JobLive(y, Publisher);
    JobLive(y, Participant);
  }

  /** The answer is fixed by the live workers alone, whatever came and went in between. */
  lemma {:induction false} AnswerIsOfTheLiveWorkers(es: seq<Event>, fs: seq<Event>)
    requires Run(Start, es).live == Run(Start, fs).live
    ensures AnswerOf(Run(Start, es).registry) == AnswerOf(Run(Start, fs).registry)
  {
    StartInv();
    RunKeepsInv(Start, es);
    RunKeepsInv(Start, fs);
    var y, z := Run(Start, es), Run(Start, fs);
    var r, s := y.registry, z.registry;
    forall k ensures k in r.workers.Keys <==> k in s.workers.Keys {
      LiveKeys(y, k);
      LiveKeys(z, k);
    }
    assert r.workers.Keys == s.workers.Keys;
    SortedIsUnique(r.namespaces, s.namespaces);
    SortedIsUnique(r.agentNames, s.agentNames);
  }

  /** Where no worker is registered twice at a time, no list holds one twice. */
  lemma {:induction false} OnceLiveIsDistinct(es: seq<Event>, k: WorkerKey)
    requires forall w :: Run(Start, es).live[w] <= 1
    ensures Distinct(ListOf(Run(Start, es).registry, k))
  {
    StartInv();
    RunKeepsInv(Start, es);
    var y := Run(Start, es);
    var list := ListOf(y.registry, k);
    forall i, j | 0 <= i < j < |list| ensures list[i] != list[j] {
      assert list == list[..j] + [list[j]] + list[j + 1..];
      assert list[i] in list[..j];
      assert y.live[list[j]] == Held(y.registry.workers, list[j]);
    }
  }

  // --------------------------------------------------------------- object

  class AgentHandler {
    var namespaceWorkers: map<WorkerKey, seq<Worker>>
    var roomKeyCount: int
    var publisherKeyCount: int
    var participantKeyCount: int
    var namespaces: seq<Name>
    var agentNames: seq<Name>

    constructor ()
      ensures State() == EmptyRegistry
    {
      namespaceWorkers := map[];
      roomKeyCount, publisherKeyCount, participantKeyCount := 0, 0, 0;
      namespaces, agentNames := [], [];
    }

    ghost function State(): Registry
      reads this
    {
      Registry(namespaceWorkers, roomKeyCount, publisherKeyCount, participantKeyCount, namespaces, agentNames)
    }

    /** `topicFails` is the outcome of RegisterJobRequestTopic. */
    method RegisterWorker(w: Worker, topicFails: bool)
      modifies this
      ensures State() == Register(old(State()), w, topicFails)
    {
      var workers := if w.key in namespaceWorkers then namespaceWorkers[w.key] else [];
      if |workers| == 0 {
        if topicFails {
          return;
        }
        match w.key.jobType {
          case Room => roomKeyCount := roomKeyCount + 1;
          case Publisher => publisherKeyCount := publisherKeyCount + 1;
          case Participant => participantKeyCount := participantKeyCount + 1;
          case OtherJob(_) =>
        }
        namespaces := Insert(namespaces, w.key.namespace);
        agentNames := Insert(agentNames, w.key.agentName);
      }
      namespaceWorkers := namespaceWorkers[w.key := workers + [w]];
    }

    method DeregisterWorker(w: Worker)
      modifies this
      ensures State() == Deregister(old(State()), w)
    {
      if w.key !in namespaceWorkers {
        return;
      }
      var workers := namespaceWorkers[w.key];
      var i := Index(workers, w);
      if i < 0 {
        return;
      }
      if |workers| > 1 {
        namespaceWorkers := namespaceWorkers[w.key := Without(workers, i)];
      } else {
        namespaceWorkers := namespaceWorkers - {w.key};
        match w.key.jobType {
          case Room => roomKeyCount := roomKeyCount - 1;
          case Publisher => publisherKeyCount := publisherKeyCount - 1;
          case Participant => participantKeyCount := participantKeyCount - 1;
          case OtherJob(_) =>
        }
        namespaces := Remove(namespaces, w.key.namespace);
        agentNames := Remove(agentNames, w.key.agentName);
      }
    }

    method CheckEnabled() returns (enabled: Enabled)
      ensures enabled == AnswerOf(State())
    {
      enabled := Enabled(Compact(namespaces), Compact(agentNames),
                         roomKeyCount != 0, publisherKeyCount != 0, participantKeyCount != 0);
    }
  }
}
