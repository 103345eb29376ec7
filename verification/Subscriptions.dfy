/**
 The asynchronous subscription manager (pkg/rtc/subscriptionmanager.go) together with the
 subscriber's entries in pkg/rtc/mediatracksubscriptions.go: desired and actual state per
 track, closes that complete later, capacity counters, and the derived index of publishers.
 */
module Subscriptions {
  import opened Wrappers

  // `Subscribe`, through markSubscribedTo, is one step, and so is handleSubscribedTrackClose.
  // A close is three: it is started, the media track forgets the subscriber, and the manager's
  // close callback runs.  The subscribe-status callbacks are made outside the lock, each in a
  // step of its own.

  datatype TrackId = TrackId(value: string)
  datatype ParticipantId = ParticipantId(value: string)

  datatype Kind = Audio | Video | Data

  /** Open; being closed; forgotten by its media track, with the close callback to come. */
  datatype Phase = Open | Closing | Detached

  /** `media` tells apart the published tracks that carried the same track id. */
  datatype SubscribedTrack = SubscribedTrack(media: int, kind: Kind, phase: Phase)

  datatype Subscription = Subscription(
    desired: bool,
    publisher: ParticipantId,
    kind: Option<Kind>,
    track: Option<SubscribedTrack>)
  {
    predicate NeedsSubscribe() { desired && track.None? }
    predicate NeedsUnsubscribe() { !desired && track.Some? }
    predicate NeedsCleanup() { !desired && track.None? }
  }

  datatype StatusChange = StatusChange(publisher: ParticipantId, subscribed: bool)

  /** `decided` are the subscribe-status changes in the order decided under the lock, `called`
      those whose callback has been made, and `outstanding` the others, oldest first. */
  datatype Status = Status(
    decided: seq<StatusChange>,
    called: seq<StatusChange>,
    outstanding: seq<StatusChange>)
  {
    /** The reconciler is on its way to a callback with true. */
    predicate Calling() { exists c :: c in outstanding && c.subscribed }
  }

  /** `attached` are the published tracks that hold a subscribed track of this subscriber. */
  datatype Manager = Manager(
    subs: map<TrackId, Subscription>,
    videoCount: int,
    audioCount: int,
    limitVideo: int,
    limitAudio: int,
    subscribedTo: map<ParticipantId, set<TrackId>>,
    status: Status,
    attached: set<(TrackId, int)>)

  const NewSubscription := Subscription(false, ParticipantId(""), None, None)

  function Start(limitVideo: int, limitAudio: int): Manager {
    Manager(map[], 0, 0, limitVideo, limitAudio, map[], Status([], [], []), {})
  }

  // ----------------------------------------------------------- operations

  predicate HasCapacity(m: Manager, kind: Kind) {
    match kind
    case Video => !(m.limitVideo > 0 && m.videoCount >= m.limitVideo)
    case Audio => !(m.limitAudio > 0 && m.audioCount >= m.limitAudio)
    case Data => true
  }

  function Count(m: Manager, kind: Kind, delta: int): Manager {
    match kind
    case Video => m.(videoCount := m.videoCount + delta)
    case Audio => m.(audioCount := m.audioCount + delta)
    case Data => m
  }

  function TracksOf(m: Manager, p: ParticipantId): set<TrackId> {
    if p in m.subscribedTo then m.subscribedTo[p] else {}
  }

  function Decide(s: Status, c: StatusChange): Status {
    s.(decided := s.decided + [c], outstanding := s.outstanding + [c])
  }

  function WithoutFirst(s: seq<StatusChange>, c: StatusChange): seq<StatusChange> {
    if s == [] then [] else if s[0] == c then s[1..] else [s[0]] + WithoutFirst(s[1..], c)
  }

  /** One of the callbacks is made: with true by the reconciler, after it has unlocked, with false
      by a goroutine of its own.  Goroutines with the same call to make are interchangeable, so
      the oldest one stands for any of them. */
  function CallBack(s: Status, c: StatusChange): Status {
    if c in s.outstanding then s.(called := s.called + [c], outstanding := WithoutFirst(s.outstanding, c)) else s
  }

  function MarkSubscribedTo(m: Manager, p: ParticipantId, t: TrackId): Manager {
    var marked := m.(subscribedTo := m.subscribedTo[p := TracksOf(m, p) + {t}]);
    if p in m.subscribedTo then marked
    else marked.(status := Decide(m.status, StatusChange(p, true)))
  }

  function UnmarkSubscribedTo(m: Manager, p: ParticipantId, t: TrackId): Manager {
    if p !in m.subscribedTo then m
    else
      var left := m.subscribedTo[p] - {t};
      if left == {} then
        m.(subscribedTo := m.subscribedTo - {p}, status := Decide(m.status, StatusChange(p, false)))
      else m.(subscribedTo := m.subscribedTo[p := left])
  }

  /** What one attempt finds: permissions, the resolved track, and how AddSubscriber ends. */
  datatype Env = Env(
    canSubscribe: bool,
    found: Option<(int, Kind)>,
    publisher: ParticipantId,
    hasPermission: bool,
    addFails: bool,
    notFoundTimeout: bool,
    waitsForUnsubscribes: bool)

  datatype Outcome = Subscribed | NoPermission | LimitExceeded | TrackNotFound | NotAdded

  /** addSubscriber: a track that already knows the subscriber hands out nothing new. */
  function AddSubscriber(m: Manager, t: TrackId, media: int, kind: Kind, addFails: bool): (Manager, bool)
    requires t in m.subs
  {
    if (t, media) in m.attached then (m, true)
    else if addFails then (m, false)
    else
      var sub := m.subs[t].(track := Some(SubscribedTrack(media, kind, Open)));
      (Count(m.(subs := m.subs[t := sub], attached := m.attached + {(t, media)}), kind, 1), true)
  }

  function Subscribe(m: Manager, t: TrackId, env: Env): (Manager, Outcome)
    requires t in m.subs
  {
    var sub := m.subs[t];
    if !env.canSubscribe then (m, NoPermission)
    else if sub.kind.Some? && !HasCapacity(m, sub.kind.value) then (m, LimitExceeded)
    else if env.found.None? then (m, TrackNotFound)
    else
      var (media, kind) := env.found.value;
      var known := sub.(kind := if sub.kind.None? then Some(kind) else sub.kind);
      if !HasCapacity(m, kind) then (m.(subs := m.subs[t := known]), LimitExceeded)
      else
        var placed := m.(subs := m.subs[t := known.(publisher := env.publisher)]);
        if !env.hasPermission then (placed, NoPermission)
        else
          var (added, ok) := AddSubscriber(placed, t, media, kind, env.addFails);
          if !ok then (added, NotAdded)
          else (MarkSubscribedTo(added, env.publisher, t), Subscribed)
  }

  function SetDesired(m: Manager, t: TrackId, desired: bool): Manager {
    if t in m.subs then m.(subs := m.subs[t := m.subs[t].(desired := desired)]) else m
  }

  /** reconcileSubscription */
  function Reconcile(m: Manager, t: TrackId, env: Env): Manager
    requires t in m.subs
  {
    var sub := m.subs[t];
    if sub.NeedsSubscribe() then
      if env.waitsForUnsubscribes then m
      else
        var (n, outcome) := Subscribe(m, t, env);
        if outcome.TrackNotFound? && env.notFoundTimeout then SetDesired(n, t, false) else n
    else if sub.NeedsUnsubscribe() then
      // RemoveSubscriber starts the close
      if sub.track.value.phase.Open? then SetPhase(m, t, Closing) else m
    else if sub.NeedsCleanup() then m.(subs := m.subs - {t})
    else m
  }

  function SetPhase(m: Manager, t: TrackId, phase: Phase): Manager
    requires t in m.subs && m.subs[t].track.Some?
  {
    m.(subs := m.subs[t := m.subs[t].(track := Some(m.subs[t].track.value.(phase := phase)))])
  }

  /** handleSubscribedTrackClose */
  function HandleClose(m: Manager, t: TrackId): Manager
    requires t in m.subs
  {
    var sub := m.subs[t];
    if sub.track.None? then m
    else
      var n := Count(m.(subs := m.subs[t := sub.(track := None)]), sub.track.value.kind, -1);
      UnmarkSubscribedTo(n, sub.publisher, t)
  }

  predicate InPhase(m: Manager, t: TrackId, phase: Phase) {
    t in m.subs && m.subs[t].track.Some? && m.subs[t].track.value.phase == phase
  }

  // ---------------------------------------------------------------- runs

  datatype Event =
    | SubscribeToTrack(t: TrackId)
    | UnsubscribeFromTrack(t: TrackId)
    | SourceTrackRemoved(t: TrackId)
    | UpdateSettings(t: TrackId)
    | ReconcileTrack(t: TrackId, env: Env)
    | PublisherCloses(t: TrackId)
    | DownTrackClosed(t: TrackId)
    | CloseCallback(t: TrackId)
    | StatusCallback(c: StatusChange)

  function Step(m: Manager, e: Event): Manager {
    match e
    case SubscribeToTrack(t) =>
      SetDesired(if t in m.subs then m else m.(subs := m.subs[t := NewSubscription]), t, true)
    case UnsubscribeFromTrack(t) => SetDesired(m, t, false)
    case SourceTrackRemoved(t) => SetDesired(m, t, false)
    case UpdateSettings(t) => if t in m.subs then m else m.(subs := m.subs[t := NewSubscription])
    // one goroutine reconciles, and makes its callbacks with true
    case ReconcileTrack(t, env) => if t in m.subs && !m.status.Calling() then Reconcile(m, t, env) else m
    case PublisherCloses(t) => if InPhase(m, t, Open) then SetPhase(m, t, Closing) else m
    case DownTrackClosed(t) =>
      if InPhase(m, t, Closing) then
        SetPhase(m, t, Detached).(attached := m.attached - {(t, m.subs[t].track.value.media)})
      else m
    case CloseCallback(t) => if InPhase(m, t, Detached) then HandleClose(m, t) else m
    case StatusCallback(c) => m.(status := CallBack(m.status, c))
  }

  function Run(m: Manager, es: seq<Event>): Manager {
    if es == [] then m else Step(Run(m, es[..|es| - 1]), es[|es| - 1])
  }

  // ------------------------------------------------------------ invariant

  function LiveOf(subs: map<TrackId, Subscription>, kind: Kind): set<TrackId> {
    set t | t in subs && subs[t].track.Some? && subs[t].track.value.kind == kind
  }

  /** The counters are the numbers of live tracks, within the limits. */
  ghost predicate CountersInv(m: Manager) {
    && m.videoCount == |LiveOf(m.subs, Video)|
    && m.audioCount == |LiveOf(m.subs, Audio)|
    && (m.limitVideo > 0 ==> m.videoCount <= m.limitVideo)
    && (m.limitAudio > 0 ==> m.audioCount <= m.limitAudio)
  }

  ghost predicate LiveFrom(subs: map<TrackId, Subscription>, p: ParticipantId, t: TrackId) {
    t in subs && subs[t].track.Some? && subs[t].publisher == p
  }

  /** `subscribedTo` is the non-empty grouping of the live tracks by publisher. */
  ghost predicate IndexInv(m: Manager) {
    && (forall p, t :: t in TracksOf(m, p) <==> LiveFrom(m.subs, p, t))
    && (forall p :: p in m.subscribedTo ==> m.subscribedTo[p] != {})
  }

  ghost predicate HoldsMedia(subs: map<TrackId, Subscription>, t: TrackId, media: int) {
    && t in subs && subs[t].track.Some?
    && subs[t].track.value.media == media && !subs[t].track.value.phase.Detached?
  }

  /** A published track knows the subscriber exactly while the subscription holds that
      published track's subscribed track, so per track id at most one is live. */
  ghost predicate AttachedInv(m: Manager) {
    forall t, media :: (t, media) in m.attached <==> HoldsMedia(m.subs, t, media)
  }

  ghost predicate KindInv(m: Manager) {
    forall t :: t in m.subs && m.subs[t].track.Some? ==> m.subs[t].kind.Some?
  }

  /** The changes of one publisher. */
  function Of(status: seq<StatusChange>, p: ParticipantId): seq<bool> {
    if status == [] then []
    else
      var rest, last := Of(status[..|status| - 1], p), status[|status| - 1];
      if last.publisher == p then rest + [last.subscribed] else rest
  }

  /** The last status of `p` in the log. */
  predicate Reported(status: seq<StatusChange>, p: ParticipantId) {
    var changes := Of(status, p);
    changes != [] && changes[|changes| - 1]
  }

  /** true, false, true, ... */
  ghost predicate TrueFalse(changes: seq<bool>) {
    forall i :: 0 <= i < |changes| ==> (changes[i] <==> i % 2 == 0)
  }

  /** Per publisher the changes alternate, beginning with true. */
  ghost predicate Alternates(status: seq<StatusChange>) { forall p :: TrueFalse(Of(status, p)) }

  /** Every decision has its callback made or outstanding; at most one with true is. */
  ghost predicate CallbacksInv(s: Status) {
    && multiset(s.called) + multiset(s.outstanding) == multiset(s.decided)
    && (forall i, j :: 0 <= i < j < |s.outstanding| && s.outstanding[i].subscribed ==> !s.outstanding[j].subscribed)
  }

  ghost predicate StatusExact(s: Status, listed: set<ParticipantId>) {
    && Alternates(s.decided)
    && (forall p :: Reported(s.decided, p) <==> p in listed)
    && CallbacksInv(s)
  }

  ghost predicate StatusInv(m: Manager) { StatusExact(m.status, m.subscribedTo.Keys) }

  ghost predicate Inv(m: Manager) {
    CountersInv(m) && IndexInv(m) && AttachedInv(m) && KindInv(m) && StatusInv(m)
  }

  lemma OfAppend(status: seq<StatusChange>, c: StatusChange, p: ParticipantId)
    ensures Of(status + [c], p) == if p == c.publisher then Of(status, p) + [c.subscribed] else Of(status, p)
  {
    assert (status + [c])[..|status|] == status;
  }

  lemma ReportedAppend(status: seq<StatusChange>, c: StatusChange)
    requires Alternates(status) && c.subscribed != Reported(status, c.publisher)
    ensures Alternates(status + [c])
    ensures forall p :: Reported(status + [c], p) == if p == c.publisher then c.subscribed else Reported(status, p)
  {
    forall p ensures TrueFalse(Of(status + [c], p)) {
      assert TrueFalse(Of(status, p));
      OfAppend(status, c, p);
    }
    forall p ensures Reported(status + [c], p) == if p == c.publisher then c.subscribed else Reported(status, p) {
      OfAppend(status, c, p);
    }
  }

  lemma {:induction false} WithoutFirstAt(s: seq<StatusChange>, c: StatusChange) returns (i: nat)
    requires c in s
    ensures i < |s| && s[i] == c && WithoutFirst(s, c) == Without(s, i)
  {
    if s[0] == c {
      i := 0;
    } else {
      var k := WithoutFirstAt(s[1..], c);
      i := k + 1;
      assert Without(s, i) == [s[0]] + Without(s[1..], k);
    }
  }

  lemma WithoutFirstTakesOne(s: seq<StatusChange>, c: StatusChange)
    requires c in s
    ensures multiset(WithoutFirst(s, c)) == multiset(s) - multiset{c} && |WithoutFirst(s, c)| == |s| - 1
  {
    var i := WithoutFirstAt(s, c);
    var before, after := s[..i], s[i + 1..];
    assert s == before + [c] + after;
    assert multiset(before + after) == multiset(before) + multiset(after);
  }

  lemma WithoutFirstKeepsOneTrue(s: seq<StatusChange>, c: StatusChange)
    requires c in s
    requires forall i, j :: 0 <= i < j < |s| && s[i].subscribed ==> !s[j].subscribed
    ensures var r := WithoutFirst(s, c); forall i, j :: 0 <= i < j < |r| && r[i].subscribed ==> !r[j].subscribed
  {
    var k := WithoutFirstAt(s, c);
    var r := WithoutFirst(s, c);
    forall i, j | 0 <= i < j < |r| && r[i].subscribed ensures !r[j].subscribed {
      assert r[i] == s[if i < k then i else i + 1] && r[j] == s[if j < k then j else j + 1];
    }
  }

  /** Changing one subscription without starting or ending a track. */
  lemma SameTrackKeepsInv(m: Manager, t: TrackId, sub: Subscription)
    requires Inv(m)
    requires var before := if t in m.subs then m.subs[t] else NewSubscription;
             && sub.track == before.track
             && (before.track.Some? ==> sub.publisher == before.publisher && sub.kind.Some?)
    ensures Inv(m.(subs := m.subs[t := sub]))
  {
    var n := m.(subs := m.subs[t := sub]);
    assert LiveOf(n.subs, Video) == LiveOf(m.subs, Video);
    assert LiveOf(n.subs, Audio) == LiveOf(m.subs, Audio);
    assert forall p, u :: LiveFrom(n.subs, p, u) <==> LiveFrom(m.subs, p, u);
    assert forall u, media :: HoldsMedia(n.subs, u, media) <==> HoldsMedia(m.subs, u, media);
    assert forall p :: TracksOf(n, p) == TracksOf(m, p);
  }

  lemma PhaseKeepsInv(m: Manager, t: TrackId, phase: Phase)
    requires Inv(m) && t in m.subs && m.subs[t].track.Some? && !m.subs[t].track.value.phase.Detached?
    ensures var n := SetPhase(m, t, phase);
            var media := m.subs[t].track.value.media;
            Inv(if phase.Detached? then n.(attached := m.attached - {(t, media)}) else n)
  {
    var n := SetPhase(m, t, phase);
    var media := m.subs[t].track.value.media;
    assert LiveOf(n.subs, Video) == LiveOf(m.subs, Video);
    assert LiveOf(n.subs, Audio) == LiveOf(m.subs, Audio);
    assert forall p, u :: LiveFrom(n.subs, p, u) <==> LiveFrom(m.subs, p, u);
    assert forall p :: TracksOf(n, p) == TracksOf(m, p);
    assert HoldsMedia(m.subs, t, media);
    forall u, x | u != t ensures HoldsMedia(n.subs, u, x) <==> HoldsMedia(m.subs, u, x) {}
  }

  lemma RemovalKeepsInv(m: Manager, t: TrackId)
    requires Inv(m) && t in m.subs && m.subs[t].track.None?
    ensures Inv(m.(subs := m.subs - {t}))
  {
    var n := m.(subs := m.subs - {t});
    assert LiveOf(n.subs, Video) == LiveOf(m.subs, Video);
    assert LiveOf(n.subs, Audio) == LiveOf(m.subs, Audio);
    assert forall p, u :: LiveFrom(n.subs, p, u) <==> LiveFrom(m.subs, p, u);
    assert forall u, media :: HoldsMedia(n.subs, u, media) <==> HoldsMedia(m.subs, u, media);
    assert forall p :: TracksOf(n, p) == TracksOf(m, p);
  }

  lemma DecidingKeepsCallbacks(s: Status, c: StatusChange)
    requires CallbacksInv(s) && (c.subscribed ==> !s.Calling())
    ensures CallbacksInv(Decide(s, c))
  {
    assert forall i :: 0 <= i < |s.outstanding| ==> s.outstanding[i] in s.outstanding;
  }

  lemma MarkKeepsStatus(m: Manager, p: ParticipantId, t: TrackId)
    requires StatusInv(m) && !m.status.Calling()
    ensures StatusInv(MarkSubscribedTo(m, p, t))
  {
    if p !in m.subscribedTo {
      ReportedAppend(m.status.decided, StatusChange(p, true));
      DecidingKeepsCallbacks(m.status, StatusChange(p, true));
    }
  }

  lemma UnmarkKeepsStatus(m: Manager, p: ParticipantId, t: TrackId)
    requires StatusInv(m)
    ensures StatusInv(UnmarkSubscribedTo(m, p, t))
  {
    if p in m.subscribedTo && m.subscribedTo[p] - {t} == {} {
      ReportedAppend(m.status.decided, StatusChange(p, false));
      DecidingKeepsCallbacks(m.status, StatusChange(p, false));
    }
  }

  /** The subscription at `t` gets a new subscribed track of `media`. */
  function Attach(m: Manager, t: TrackId, media: int, kind: Kind): Manager
    requires t in m.subs
  {
    var n := AddSubscriber(m, t, media, kind, false).0;
    MarkSubscribedTo(n, m.subs[t].publisher, t)
  }

  /** Starting or ending the track of one subscription moves one counter by one. */
  lemma LiveOfTransfer(subs: map<TrackId, Subscription>, t: TrackId, idle: Subscription, live: Subscription, k: Kind)
    requires idle.track.None? && live.track.Some?
    ensures |LiveOf(subs[t := live], k)| == |LiveOf(subs[t := idle], k)| + if k == live.track.value.kind then 1 else 0
  {
    var with, without := LiveOf(subs[t := live], k), LiveOf(subs[t := idle], k);
    forall u ensures u in with <==> u in without || (u == t && k == live.track.value.kind) {
      assert u != t ==> (u in subs[t := live] <==> u in subs) && (u in subs[t := idle] <==> u in subs);
    }
    assert t !in without;
    assert with == without + if k == live.track.value.kind then {t} else {};
  }

  lemma AttachKeepsCounters(m: Manager, t: TrackId, media: int, kind: Kind)
    requires CountersInv(m) && t in m.subs && m.subs[t].track.None? && (t, media) !in m.attached && HasCapacity(m, kind)
    ensures CountersInv(Attach(m, t, media, kind))
  {
    var n := Attach(m, t, media, kind);
    assert m.subs == m.subs[t := m.subs[t]];
    LiveOfTransfer(m.subs, t, m.subs[t], n.subs[t], Video);
    LiveOfTransfer(m.subs, t, m.subs[t], n.subs[t], Audio);
  }

  lemma AttachKeepsIndex(m: Manager, t: TrackId, media: int, kind: Kind)
    requires IndexInv(m) && t in m.subs && m.subs[t].track.None? && (t, media) !in m.attached
    ensures IndexInv(Attach(m, t, media, kind))
  {
    var n, p := Attach(m, t, media, kind), m.subs[t].publisher;
    assert n.subs == m.subs[t := m.subs[t].(track := Some(SubscribedTrack(media, kind, Open)))];
    forall q, u ensures u in TracksOf(n, q) <==> LiveFrom(n.subs, q, u) {
      assert u in TracksOf(m, q) <==> LiveFrom(m.subs, q, u);
    }
  }

  lemma AttachKeepsAttached(m: Manager, t: TrackId, media: int, kind: Kind)
    requires AttachedInv(m) && t in m.subs && m.subs[t].track.None? && (t, media) !in m.attached
    ensures AttachedInv(Attach(m, t, media, kind))
  {
    var n := Attach(m, t, media, kind);
    assert n.subs == m.subs[t := m.subs[t].(track := Some(SubscribedTrack(media, kind, Open)))];
    forall u, x ensures (u, x) in n.attached <==> HoldsMedia(n.subs, u, x) {
      assert (u, x) in m.attached <==> HoldsMedia(m.subs, u, x);
    }
  }

  lemma AttachKeepsStatus(m: Manager, t: TrackId, media: int, kind: Kind)
    requires StatusInv(m) && t in m.subs && (t, media) !in m.attached && !m.status.Calling()
    ensures StatusInv(Attach(m, t, media, kind))
  {
    var n := AddSubscriber(m, t, media, kind, false).0;
    assert n.status == m.status && n.subscribedTo == m.subscribedTo;
    MarkKeepsStatus(n, m.subs[t].publisher, t);
  }

  lemma AttachKeepsKind(m: Manager, t: TrackId, media: int, kind: Kind)
    requires KindInv(m) && t in m.subs && m.subs[t].kind.Some?
    ensures KindInv(Attach(m, t, media, kind))
  {
  }

  lemma NotAttached(m: Manager, t: TrackId, media: int)
    requires AttachedInv(m) && t in m.subs && m.subs[t].track.None?
    ensures (t, media) !in m.attached
  {
    assert !HoldsMedia(m.subs, t, media);
  }

  lemma AttachKeepsInv(m: Manager, t: TrackId, media: int, kind: Kind)
    requires Inv(m) && t in m.subs && m.subs[t].track.None? && m.subs[t].kind.Some? && HasCapacity(m, kind)
    requires !m.status.Calling()
    ensures (t, media) !in m.attached
    ensures Inv(Attach(m, t, media, kind))
  {
    NotAttached(m, t, media);
    AttachKeepsCounters(m, t, media, kind);
    AttachKeepsIndex(m, t, media, kind);
    AttachKeepsAttached(m, t, media, kind);
    AttachKeepsStatus(m, t, media, kind);
    AttachKeepsKind(m, t, media, kind);
  }

  lemma CloseKeepsIndex(m: Manager, t: TrackId)
    requires IndexInv(m) && InPhase(m, t, Detached)
    ensures IndexInv(HandleClose(m, t))
  {
    var n, p := HandleClose(m, t), m.subs[t].publisher;
    assert LiveFrom(m.subs, p, t) && t in TracksOf(m, p);
    assert n.subs == m.subs[t := m.subs[t].(track := None)];
    forall q, u ensures u in TracksOf(n, q) <==> LiveFrom(n.subs, q, u) {
      assert u in TracksOf(m, q) <==> LiveFrom(m.subs, q, u);
    }
  }

  lemma CloseKeepsAttached(m: Manager, t: TrackId)
    requires AttachedInv(m) && InPhase(m, t, Detached)
    ensures AttachedInv(HandleClose(m, t))
  {
    var n := HandleClose(m, t);
    assert n.subs == m.subs[t := m.subs[t].(track := None)];
    forall u, x ensures (u, x) in n.attached <==> HoldsMedia(n.subs, u, x) {
      assert (u, x) in m.attached <==> HoldsMedia(m.subs, u, x);
    }
  }

  lemma CloseKeepsCounters(m: Manager, t: TrackId)
    requires CountersInv(m) && InPhase(m, t, Detached)
    ensures CountersInv(HandleClose(m, t))
  {
    var n := HandleClose(m, t);
    assert m.subs == m.subs[t := m.subs[t]];
    LiveOfTransfer(m.subs, t, n.subs[t], m.subs[t], Video);
    LiveOfTransfer(m.subs, t, n.subs[t], m.subs[t], Audio);
  }

  lemma CloseKeepsKind(m: Manager, t: TrackId)
    requires KindInv(m) && InPhase(m, t, Detached)
    ensures KindInv(HandleClose(m, t))
  {
    assert HandleClose(m, t).subs == m.subs[t := m.subs[t].(track := None)];
  }

  lemma CloseKeepsInv(m: Manager, t: TrackId)
    requires Inv(m) && InPhase(m, t, Detached)
    ensures Inv(HandleClose(m, t))
  {
    var sub := m.subs[t];
    CloseKeepsIndex(m, t);
    CloseKeepsAttached(m, t);
    CloseKeepsCounters(m, t);
    CloseKeepsKind(m, t);
    var counted := Count(m.(subs := m.subs[t := sub.(track := None)]), sub.track.value.kind, -1);
    assert counted.status == m.status && counted.subscribedTo == m.subscribedTo;
    UnmarkKeepsStatus(counted, sub.publisher, t);
  }

  lemma SubscribeKeepsInv(m: Manager, t: TrackId, env: Env)
    requires Inv(m) && t in m.subs && m.subs[t].track.None? && !m.status.Calling()
    ensures Inv(Subscribe(m, t, env).0)
  {
    var sub := m.subs[t];
    if env.canSubscribe && env.found.Some? && !(sub.kind.Some? && !HasCapacity(m, sub.kind.value)) {
      var (media, kind) := env.found.value;
      var known := sub.(kind := if sub.kind.None? then Some(kind) else sub.kind);
      if !HasCapacity(m, kind) {
        SameTrackKeepsInv(m, t, known);
      } else {
        SameTrackKeepsInv(m, t, known.(publisher := env.publisher));
        var placed := m.(subs := m.subs[t := known.(publisher := env.publisher)]);
        AttachKeepsInv(placed, t, media, kind);
      }
    }
  }

  lemma SetDesiredKeepsInv(m: Manager, t: TrackId, desired: bool)
    requires Inv(m)
    ensures Inv(SetDesired(m, t, desired))
  {
    if t in m.subs {
      assert m.subs[t].track.Some? ==> m.subs[t].kind.Some?;
      SameTrackKeepsInv(m, t, m.subs[t].(desired := desired));
    }
  }

  lemma CallBackKeepsInv(m: Manager, c: StatusChange)
    requires Inv(m)
    ensures Inv(m.(status := CallBack(m.status, c)))
  {
    var n := m.(status := CallBack(m.status, c));
    if c in m.status.outstanding {
      WithoutFirstTakesOne(m.status.outstanding, c);
      WithoutFirstKeepsOneTrue(m.status.outstanding, c);
    }
    assert forall q :: TracksOf(n, q) == TracksOf(m, q);
  }

  lemma StepKeepsInv(m: Manager, e: Event)
    requires Inv(m)
    ensures Inv(Step(m, e))
  {
    match e
    case SubscribeToTrack(t) =>
      if t !in m.subs { SameTrackKeepsInv(m, t, NewSubscription); }
      SetDesiredKeepsInv(if t in m.subs then m else m.(subs := m.subs[t := NewSubscription]), t, true);
    case UnsubscribeFromTrack(t) => SetDesiredKeepsInv(m, t, false);
    case SourceTrackRemoved(t) => SetDesiredKeepsInv(m, t, false);
    case UpdateSettings(t) => if t !in m.subs { SameTrackKeepsInv(m, t, NewSubscription); }
    case ReconcileTrack(t, env) =>
      if t in m.subs && !m.status.Calling() {
        if m.subs[t].NeedsSubscribe() {
          SubscribeKeepsInv(m, t, env);
          SetDesiredKeepsInv(Subscribe(m, t, env).0, t, false);
        } else if m.subs[t].NeedsUnsubscribe() {
          if m.subs[t].track.value.phase.Open? { PhaseKeepsInv(m, t, Closing); }
        } else if m.subs[t].NeedsCleanup() {
          RemovalKeepsInv(m, t);
        }
      }
    case PublisherCloses(t) => if InPhase(m, t, Open) { PhaseKeepsInv(m, t, Closing); }
    case DownTrackClosed(t) => if InPhase(m, t, Closing) { PhaseKeepsInv(m, t, Detached); }
    case CloseCallback(t) => if InPhase(m, t, Detached) { CloseKeepsInv(m, t); }
    case StatusCallback(c) => CallBackKeepsInv(m, c);
  }

  lemma {:induction false} RunKeepsInv(m: Manager, es: seq<Event>)
    requires Inv(m)
    ensures Inv(Run(m, es))
  {
    if es != [] {
      RunKeepsInv(m, es[..|es| - 1]);
      StepKeepsInv(Run(m, es[..|es| - 1]), es[|es| - 1]);
    }
  }

  // -------------------------------------------------------- main results

  lemma StartInv(limitVideo: int, limitAudio: int)
    ensures Inv(Start(limitVideo, limitAudio))
  {
    var m := Start(limitVideo, limitAudio);
    assert LiveOf(m.subs, Video) == {} && LiveOf(m.subs, Audio) == {};
  }

  lemma StepKeepsLimits(m: Manager, e: Event)
    ensures Step(m, e).limitVideo == m.limitVideo && Step(m, e).limitAudio == m.limitAudio
  {
    if e.ReconcileTrack? && e.t in m.subs && m.subs[e.t].NeedsSubscribe() {
      var n := Subscribe(m, e.t, e.env).0;
      assert n.limitVideo == m.limitVideo && n.limitAudio == m.limitAudio;
    }
  }

  lemma {:induction false} LimitsStay(m: Manager, es: seq<Event>)
    ensures Run(m, es).limitVideo == m.limitVideo && Run(m, es).limitAudio == m.limitAudio
  {
    if es != [] {
      LimitsStay(m, es[..|es| - 1]);
      StepKeepsLimits(Run(m, es[..|es| - 1]), es[|es| - 1]);
    }
  }

  /** In every reachable state the counters equal the numbers of live tracks of each kind
      and respect the limits. */
  lemma {:induction false} CountersAreExact(limitVideo: int, limitAudio: int, es: seq<Event>)
    ensures var m := Run(Start(limitVideo, limitAudio), es);
            && m.videoCount == |LiveOf(m.subs, Video)| && m.audioCount == |LiveOf(m.subs, Audio)|
            && (limitVideo > 0 ==> m.videoCount <= limitVideo)
            && (limitAudio > 0 ==> m.audioCount <= limitAudio)
  {
    StartInv(limitVideo, limitAudio);
    RunKeepsInv(Start(limitVideo, limitAudio), es);
    LimitsStay(Start(limitVideo, limitAudio), es);
  }

  /** A publisher is listed exactly while one of its tracks is live, with exactly those. */
  lemma {:induction false} IndexIsExact(limitVideo: int, limitAudio: int, es: seq<Event>, p: ParticipantId)
    ensures var m := Run(Start(limitVideo, limitAudio), es);
            var live := set t | t in m.subs && m.subs[t].track.Some? && m.subs[t].publisher == p;
            && (p in m.subscribedTo <==> live != {})
            && (p in m.subscribedTo ==> m.subscribedTo[p] == live)
  {
    StartInv(limitVideo, limitAudio);
    RunKeepsInv(Start(limitVideo, limitAudio), es);
    var m := Run(Start(limitVideo, limitAudio), es);
    var live := set t | t in m.subs && m.subs[t].track.Some? && m.subs[t].publisher == p;
    forall t ensures t in live <==> t in TracksOf(m, p) { assert t in live <==> LiveFrom(m.subs, p, t); }
    assert live == TracksOf(m, p);
  }

  /** However a track id is republished, at most one published track holds a subscribed
      track for this subscriber under it, and it is the one its subscription holds. */
  lemma {:induction false} OneLiveTrackPerId(limitVideo: int, limitAudio: int, es: seq<Event>, t: TrackId, a: int, b: int)
    requires (t, a) in Run(Start(limitVideo, limitAudio), es).attached
    requires (t, b) in Run(Start(limitVideo, limitAudio), es).attached
    ensures a == b && HoldsMedia(Run(Start(limitVideo, limitAudio), es).subs, t, a)
  {
    StartInv(limitVideo, limitAudio);
    RunKeepsInv(Start(limitVideo, limitAudio), es);
    var m := Run(Start(limitVideo, limitAudio), es);
    assert HoldsMedia(m.subs, t, a) && HoldsMedia(m.subs, t, b);
  }

  /** The status changes decided for each publisher alternate true, false, ..., and the last one
      says whether the publisher is listed. */
  lemma {:induction false} DecisionsAlternate(limitVideo: int, limitAudio: int, es: seq<Event>)
    ensures var m := Run(Start(limitVideo, limitAudio), es);
            Alternates(m.status.decided) && forall p :: Reported(m.status.decided, p) <==> p in m.subscribedTo
  {
    StartInv(limitVideo, limitAudio);
    RunKeepsInv(Start(limitVideo, limitAudio), es);
  }

  /** Every callback made was decided and none is made twice; the other decisions are outstanding,
      and at most one with true is. */
  lemma {:induction false} CallbacksAreDecided(limitVideo: int, limitAudio: int, es: seq<Event>)
    ensures var s := Run(Start(limitVideo, limitAudio), es).status;
            && multiset(s.called) + multiset(s.outstanding) == multiset(s.decided)
            && (forall i, j :: 0 <= i < j < |s.outstanding| && s.outstanding[i].subscribed ==> !s.outstanding[j].subscribed)
  {
    StartInv(limitVideo, limitAudio);
    RunKeepsInv(Start(limitVideo, limitAudio), es);
  }

  /** Marking keeps the index exact just when the track is still live at that moment; a close
      that runs between addSubscriber and markSubscribedTo would leave a stale entry. */
  lemma MarkNeedsLiveTrack(m: Manager, p: ParticipantId, t: TrackId)
    requires IndexInv(m)
    ensures IndexInv(MarkSubscribedTo(m, p, t)) <==> LiveFrom(m.subs, p, t)
  {
    var n := MarkSubscribedTo(m, p, t);
    assert t in TracksOf(n, p);
    if LiveFrom(m.subs, p, t) {
      assert t in TracksOf(m, p);
      assert forall q :: TracksOf(n, q) == TracksOf(m, q);
    }
  }

  /** Such a close: the track is added, closed and taken out of the index, and then marked. */
  lemma CloseBeforeMarkIsStale(m: Manager, p: ParticipantId, t: TrackId, media: int)
    requires IndexInv(m) && t in m.subs && m.subs[t].track.None? && m.subs[t].publisher == p && (t, media) !in m.attached
    ensures var added := AddSubscriber(m, t, media, Video, false).0;
            var closed := Step(Step(Step(added, PublisherCloses(t)), DownTrackClosed(t)), CloseCallback(t));
            var n := MarkSubscribedTo(closed, p, t);
            t in TracksOf(n, p) && n.subs[t].track.None? && !IndexInv(n)
  {
    var added := AddSubscriber(m, t, media, Video, false).0;
    assert InPhase(added, t, Open);
    var closing := Step(added, PublisherCloses(t));
    assert InPhase(closing, t, Closing);
    var detached := Step(closing, DownTrackClosed(t));
    assert InPhase(detached, t, Detached);
    var n := MarkSubscribedTo(Step(detached, CloseCallback(t)), p, t);
    assert !LiveFrom(n.subs, p, t);
  }

  // ---------------------------------------------------------- convergence

  datatype Published = Published(media: int, kind: Kind, publisher: ParticipantId)

  function Desired(subs: map<TrackId, Subscription>): set<TrackId> {
    set t | t in subs && subs[t].desired
  }

  function Wanted(subs: map<TrackId, Subscription>, world: map<TrackId, Published>, kind: Kind): set<TrackId> {
    set t | t in subs && subs[t].desired && t in world && world[t].kind == kind
  }

  /** Every desired track is published, a track id keeps its kind, and the limits leave room
      for all desired tracks. */
  ghost predicate Fulfillable(m: Manager, world: map<TrackId, Published>) {
    && Desired(m.subs) <= world.Keys
    && (forall t :: t in m.subs && m.subs[t].desired ==>
          && (m.subs[t].kind.Some? ==> m.subs[t].kind.value == world[t].kind)
          && (m.subs[t].track.Some? ==> m.subs[t].track.value.kind == world[t].kind))
    && (m.limitVideo > 0 ==> |Wanted(m.subs, world, Video)| <= m.limitVideo)
    && (m.limitAudio > 0 ==> |Wanted(m.subs, world, Audio)| <= m.limitAudio)
  }

  /** Nothing but reconciliation, the completion of closes and callbacks happens, and attempts
      succeed. */
  ghost predicate Settling(world: map<TrackId, Published>, e: Event) {
    match e
    case ReconcileTrack(t, env) =>
      t in world ==>
        && env.canSubscribe && env.hasPermission && !env.addFails && !env.notFoundTimeout
        && env.found == Some((world[t].media, world[t].kind)) && env.publisher == world[t].publisher
    case DownTrackClosed(_) => true
    case CloseCallback(_) => true
    case StatusCallback(_) => true
    case _ => false
  }

  /** Steps left until `sub` is open if desired, or gone if not. */
  function Weight(sub: Subscription): nat {
    match sub.track
    case None => if sub.desired && sub.kind.None? then 2 else 1
    case Some(track) =>
      match track.phase
      case Detached => 2
      case Closing => 3
      case Open => if sub.desired then 0 else 4
  }

  function Heavy(subs: map<TrackId, Subscription>, weight: nat): set<TrackId> {
    set t | t in subs && weight <= Weight(subs[t])
  }

  function Measure(subs: map<TrackId, Subscription>): nat {
    |Heavy(subs, 1)| + |Heavy(subs, 2)| + |Heavy(subs, 3)| + |Heavy(subs, 4)|
  }

  /** A step towards what is desired lets at most one callback become outstanding. */
  function Left(m: Manager): nat { 2 * Measure(m.subs) + |m.status.outstanding| }

  lemma NothingLeft(subs: map<TrackId, Subscription>)
    ensures Measure(subs) == 0 <==> forall t :: t in subs ==> Weight(subs[t]) == 0
  {
    if forall t :: t in subs ==> Weight(subs[t]) == 0 {
      assert forall w: nat | w > 0 :: Heavy(subs, w) == {};
    } else {
      var t :| t in subs && Weight(subs[t]) > 0;
      assert t in Heavy(subs, 1);
    }
  }

  lemma LighterSet(subs: map<TrackId, Subscription>, lighter: map<TrackId, Subscription>, t: TrackId, weight: nat)
    requires t in subs && lighter.Keys <= subs.Keys
    requires forall u :: u in subs && u != t ==> u in lighter && lighter[u] == subs[u]
    requires t in lighter ==> Weight(lighter[t]) < Weight(subs[t])
    requires 1 <= weight
    ensures |Heavy(lighter, weight)| <= |Heavy(subs, weight)|
    ensures t !in Heavy(lighter, weight) && t in Heavy(subs, weight) ==> |Heavy(lighter, weight)| < |Heavy(subs, weight)|
  {
    SubsetSize(Heavy(lighter, weight), Heavy(subs, weight));
  }

  /** Making one subscription lighter, or removing one that weighs something, lowers the measure. */
  lemma Lighter(subs: map<TrackId, Subscription>, lighter: map<TrackId, Subscription>, t: TrackId)
    requires t in subs && Weight(subs[t]) > 0 && lighter.Keys <= subs.Keys
    requires forall u :: u in subs && u != t ==> u in lighter && lighter[u] == subs[u]
    requires t in lighter ==> Weight(lighter[t]) < Weight(subs[t])
    ensures Measure(lighter) < Measure(subs)
  {
    LighterSet(subs, lighter, t, 1);
    LighterSet(subs, lighter, t, 2);
    LighterSet(subs, lighter, t, 3);
    LighterSet(subs, lighter, t, 4);
    assert t in Heavy(subs, Weight(subs[t])) && t !in Heavy(lighter, Weight(subs[t]));
  }

  /** Only the subscription at `t` changed, towards what is desired of it. */
  ghost predicate Nearer(m: Manager, n: Manager, t: TrackId, world: map<TrackId, Published>) {
    && n.limitVideo == m.limitVideo && n.limitAudio == m.limitAudio
    && |n.status.outstanding| <= |m.status.outstanding| + 1
    && t in m.subs && Weight(m.subs[t]) > 0 && n.subs.Keys <= m.subs.Keys
    && (forall u :: u in m.subs && u != t ==> u in n.subs && n.subs[u] == m.subs[u])
    && (t !in n.subs ==> !m.subs[t].desired)
    && (t in n.subs ==>
          && Weight(n.subs[t]) < Weight(m.subs[t]) && n.subs[t].desired == m.subs[t].desired
          && (n.subs[t].desired && t in world ==>
                && (n.subs[t].kind.Some? ==> n.subs[t].kind.value == world[t].kind)
                && (n.subs[t].track.Some? ==> n.subs[t].track.value.kind == world[t].kind)))
  }

  lemma NearerLowers(m: Manager, n: Manager, t: TrackId, world: map<TrackId, Published>)
    requires Fulfillable(m, world) && Nearer(m, n, t, world)
    ensures Fulfillable(n, world) && Desired(n.subs) == Desired(m.subs) && Left(n) < Left(m)
  {
    Lighter(m.subs, n.subs, t);
    forall u ensures u in Desired(n.subs) <==> u in Desired(m.subs) {}
    forall k ensures Wanted(n.subs, world, k) == Wanted(m.subs, world, k) {
      forall u ensures u in Wanted(n.subs, world, k) <==> u in Wanted(m.subs, world, k) {
        assert u in Desired(n.subs) <==> u in Desired(m.subs);
      }
    }
  }

  /** With room, an attempt that meets no obstacle opens the track. */
  lemma SubscribeSucceeds(m: Manager, t: TrackId, env: Env, media: int, kind: Kind)
    requires AttachedInv(m) && t in m.subs && m.subs[t].track.None? && HasCapacity(m, kind)
    requires env.canSubscribe && env.hasPermission && !env.addFails && env.found == Some((media, kind))
    requires m.subs[t].kind == None || m.subs[t].kind == Some(kind)
    ensures var (n, outcome) := Subscribe(m, t, env);
            && outcome.Subscribed? && n.limitVideo == m.limitVideo && n.limitAudio == m.limitAudio
            && n.subs == m.subs[t := m.subs[t].(kind := Some(kind), publisher := env.publisher,
                                                 track := Some(SubscribedTrack(media, kind, Open)))]
  {
    assert !HoldsMedia(m.subs, t, media);
    assert (t, media) !in m.attached;
  }

  lemma SubscribeOpens(m: Manager, t: TrackId, env: Env, world: map<TrackId, Published>)
    requires Inv(m) && Fulfillable(m, world) && Settling(world, ReconcileTrack(t, env))
    requires t in m.subs && m.subs[t].NeedsSubscribe() && HasCapacity(m, world[t].kind)
    ensures var (n, outcome) := Subscribe(m, t, env); Nearer(m, n, t, world) && n != m && outcome.Subscribed?
  {
    assert t in Desired(m.subs);
    SubscribeSucceeds(m, t, env, world[t].media, world[t].kind);
    assert Subscribe(m, t, env).0.subs[t] != m.subs[t];
  }

  /** Without, at most the kind of the track is learnt. */
  lemma SubscribeWaits(m: Manager, t: TrackId, env: Env, world: map<TrackId, Published>)
    requires Fulfillable(m, world) && Settling(world, ReconcileTrack(t, env))
    requires t in m.subs && m.subs[t].NeedsSubscribe() && !HasCapacity(m, world[t].kind)
    ensures var (n, outcome) := Subscribe(m, t, env); (n == m || Nearer(m, n, t, world)) && !outcome.TrackNotFound?
  {
    assert t in Desired(m.subs);
    var sub, n := m.subs[t], Subscribe(m, t, env).0;
    if sub.kind.None? {
      assert n == m.(subs := m.subs[t := sub.(kind := Some(world[t].kind))]);
    }
  }

  lemma SubscribeIsNearer(m: Manager, t: TrackId, env: Env, world: map<TrackId, Published>)
    requires Inv(m) && Fulfillable(m, world) && Settling(world, ReconcileTrack(t, env))
    requires t in m.subs && m.subs[t].NeedsSubscribe()
    ensures t in world
    ensures var (n, outcome) := Subscribe(m, t, env);
            (n == m || Nearer(m, n, t, world)) && !outcome.TrackNotFound?
    ensures HasCapacity(m, world[t].kind) ==> Subscribe(m, t, env).0 != m
  {
    assert t in Desired(m.subs);
    if HasCapacity(m, world[t].kind) { SubscribeOpens(m, t, env, world); } else { SubscribeWaits(m, t, env, world); }
  }

  lemma ReconcileIsNearer(m: Manager, t: TrackId, env: Env, world: map<TrackId, Published>)
    requires Inv(m) && Fulfillable(m, world) && Settling(world, ReconcileTrack(t, env)) && t in m.subs
    ensures Reconcile(m, t, env) == m || Nearer(m, Reconcile(m, t, env), t, world)
  {
    if m.subs[t].NeedsSubscribe() { SubscribeIsNearer(m, t, env, world); }
  }

  lemma CallbackIsNearer(m: Manager, t: TrackId, world: map<TrackId, Published>)
    requires KindInv(m) && Fulfillable(m, world) && InPhase(m, t, Detached)
    ensures Nearer(m, Step(m, CloseCallback(t)), t, world)
  {
    assert HandleClose(m, t).subs == m.subs[t := m.subs[t].(track := None)];
  }

  /** A settling step either changes nothing or lowers the measure; it never changes what is
      desired nor makes it impossible to fulfil. */
  lemma SettlingStep(m: Manager, e: Event, world: map<TrackId, Published>)
    requires Inv(m) && Fulfillable(m, world) && Settling(world, e)
    ensures var n := Step(m, e);
            && Fulfillable(n, world) && Desired(n.subs) == Desired(m.subs)
            && (n == m || Left(n) < Left(m))
  {
    var n := Step(m, e);
    if e.StatusCallback? {
      if e.c in m.status.outstanding { WithoutFirstTakesOne(m.status.outstanding, e.c); }
    } else if n != m {
      if e.ReconcileTrack? {
        ReconcileIsNearer(m, e.t, e.env, world);
      } else if e.CloseCallback? {
        CallbackIsNearer(m, e.t, world);
      }
      NearerLowers(m, n, e.t, world);
    }
  }

  /** An unfinished subscription that is not desired, or not open, can be moved on. */
  lemma ProgressAt(m: Manager, world: map<TrackId, Published>, t: TrackId) returns (e: Event)
    requires t in m.subs && Weight(m.subs[t]) > 0 && (!m.subs[t].desired || m.subs[t].track.Some?)
    requires m.status.outstanding == []
    ensures Settling(world, e) && Step(m, e) != m
  {
    var env := Env(true, if t in world then Some((world[t].media, world[t].kind)) else None,
                   if t in world then world[t].publisher else ParticipantId(""), true, false, false, false);
    var sub := m.subs[t];
    if sub.track.None? {
      e := ReconcileTrack(t, env);
      assert t !in Step(m, e).subs;
    } else if sub.track.value.phase.Open? {
      e := ReconcileTrack(t, env);
      assert Step(m, e).subs[t].track.value.phase.Closing?;
    } else if sub.track.value.phase.Closing? {
      e := DownTrackClosed(t);
      assert Step(m, e).subs[t].track.value.phase.Detached?;
    } else {
      e := CloseCallback(t);
      assert Step(m, e).subs[t].track.None?;
    }
  }

  /** While something is left to do, some settling step does part of it. */
  lemma Progress(m: Manager, world: map<TrackId, Published>) returns (e: Event)
    requires Inv(m) && Fulfillable(m, world) && Left(m) > 0
    ensures Settling(world, e) && Step(m, e) != m
  {
    if m.status.outstanding != [] {
      e := StatusCallback(m.status.outstanding[0]);
      assert |Step(m, e).status.called| == |m.status.called| + 1;
    } else if t :| t in m.subs && Weight(m.subs[t]) > 0 && (!m.subs[t].desired || m.subs[t].track.Some?) {
      e := ProgressAt(m, world, t);
    } else {
      NothingLeft(m.subs);
      var t :| t in m.subs && Weight(m.subs[t]) > 0;
      assert t in Desired(m.subs);
      assert forall u :: u in m.subs && m.subs[u].track.Some? ==> m.subs[u].desired;
      RoomForWanted(m, world, t);
      var p := world[t];
      e := ReconcileTrack(t, Env(true, Some((p.media, p.kind)), p.publisher, true, false, false, false));
      SubscribeIsNearer(m, t, e.env, world);
      assert Step(m, e) == Subscribe(m, t, e.env).0;
    }
  }

  /** Once only open desired tracks hold capacity, a missing desired track has room. */
  lemma RoomForWanted(m: Manager, world: map<TrackId, Published>, t: TrackId)
    requires Inv(m) && Fulfillable(m, world) && t in m.subs && m.subs[t].NeedsSubscribe()
    requires forall u :: u in m.subs && m.subs[u].track.Some? ==> m.subs[u].desired
    ensures HasCapacity(m, world[t].kind)
  {
    assert t in Desired(m.subs);
    var k := world[t].kind;
    assert LiveOf(m.subs, k) <= Wanted(m.subs, world, k) - {t} by {
      forall u | u in LiveOf(m.subs, k) ensures u in Wanted(m.subs, world, k) { assert u in Desired(m.subs); }
    }
    assert t in Wanted(m.subs, world, k);
    SubsetSize(LiveOf(m.subs, k), Wanted(m.subs, world, k) - {t});
  }

  ghost predicate SettlingRun(world: map<TrackId, Published>, es: seq<Event>) {
    forall i :: 0 <= i < |es| ==> Settling(world, es[i])
  }

  /** How many steps of the run change something. */
  function Effective(m: Manager, es: seq<Event>): nat {
    if es == [] then 0
    else Effective(m, es[..|es| - 1]) + if Run(m, es) != Run(m, es[..|es| - 1]) then 1 else 0
  }

  ghost predicate Converged(m: Manager, desired: set<TrackId>) {
    m.subs.Keys == desired && (forall t :: t in desired ==> InPhase(m, t, Open)) && m.status.outstanding == []
  }

  lemma {:induction false} SettlingRunLowers(m: Manager, es: seq<Event>, world: map<TrackId, Published>)
    requires Inv(m) && Fulfillable(m, world) && SettlingRun(world, es)
    ensures var n := Run(m, es);
            && Inv(n) && Fulfillable(n, world) && Desired(n.subs) == Desired(m.subs)
            && Effective(m, es) + Left(n) <= Left(m)
  {
    if es != [] {
      SettlingRunLowers(m, es[..|es| - 1], world);
      var before := Run(m, es[..|es| - 1]);
      SettlingStep(before, es[|es| - 1], world);
      StepKeepsInv(before, es[|es| - 1]);
    }
  }

  /** Reconciliation converges: from any state, also with tracks desired again while still
      closing, a run has at most `Left` effective steps, and when no further step has an effect
      the subscriptions are exactly the desired tracks, each with an open track, and every
      callback has been made. */
  lemma {:induction false} Converges(m: Manager, es: seq<Event>, world: map<TrackId, Published>)
    requires Inv(m) && Fulfillable(m, world) && SettlingRun(world, es)
    ensures Effective(m, es) <= Left(m)
    ensures (forall e :: Settling(world, e) ==> Step(Run(m, es), e) == Run(m, es)) ==>
              Converged(Run(m, es), Desired(m.subs))
  {
    SettlingRunLowers(m, es, world);
    if forall e :: Settling(world, e) ==> Step(Run(m, es), e) == Run(m, es) {
      var n := Run(m, es);
      if Left(n) > 0 { var e := Progress(n, world); }
      NothingLeft(n.subs);
      assert n.subs.Keys == Desired(n.subs);
    }
  }
}
