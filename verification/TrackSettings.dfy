/**
 Subscriber settings of a subscribed track (pkg/rtc/subscribedtrack.go).  Changing the
 settings, binding, and applying them interleave: an apply takes a version under the
 settings lock, reads the settings without the lock while it computes the layers, and
 takes effect, under the lock again, only if no later apply has begun.
 */
module TrackSettings {
  import opened Wrappers

  // Each locked region is one step, and each of the two unlocked reads is one.

  /** UpdateTrackSettings */
  datatype Settings = Settings(disabled: bool, quality: int, width: nat, height: nat, fps: nat)

  const LOW := 0
  const HIGH := 2

  /** The invalid spatial layer. */
  const INVALID := -1

  /** The answers of the published track about its layers. */
  datatype Layers = Layers(
    qualityForDimension: (nat, nat) -> int,
    spatialForQuality: int -> int,
    temporalForFps: (int, nat) -> int)

  function Spatial(layers: Layers, quality: int, s: Settings): int {
    layers.spatialForQuality(if s.width > 0 then layers.qualityForDimension(s.width, s.height) else quality)
  }

  /** None stands for the invalid temporal layer. */
  function Temporal(layers: Layers, spatial: int, s: Settings): Option<int> {
    if s.fps > 0 then Some(layers.temporalForFps(spatial, s.fps)) else None
  }

  /** The subscribed track, with what it last told its down track. */
  datatype Track = Track(
    isVideo: bool,
    adaptiveStream: bool,
    settings: Option<Settings>,
    version: nat,
    bound: bool,
    muted: bool,
    maxSpatial: Option<int>,
    maxTemporal: Option<int>)

  datatype Schedule = NoApply | ApplyNow | ApplyDebounced

  /** UpdateSubscriberSettings up to the unlock, and how applySettings is then called. */
  function Update(t: Track, s: Settings, isImmediate: bool): (Track, Schedule) {
    if t.settings == Some(s) then (t, NoApply)
    else
      var wasMuted := t.settings.Some? && t.settings.value.disabled;
      (t.(settings := Some(s)), if isImmediate || (!s.disabled && wasMuted) then ApplyNow else ApplyDebounced)
  }

  /** Bound up to the call of applySettings, which follows for video. */
  function Bind(t: Track): (Track, Schedule) {
    var bound := t.(bound := true);
    if !t.isVideo then (bound, NoApply)
    else match t.settings
      case Some(s) =>
        (if t.adaptiveStream then bound.(settings := Some(s.(disabled := false))) else bound, ApplyNow)
      case None =>
        (bound.(settings := Some(Settings(false, if t.adaptiveStream then LOW else HIGH, 0, 0, 0))), ApplyNow)
  }

  /** The first locked region of applySettings. */
  function Begin(t: Track): Track {
    if t.settings.None? then t else t.(version := t.version + 1)
  }

  /** The last locked region of applySettings. */
  function Finish(t: Track, version: nat, spatial: int, temporal: Option<int>): Track {
    if version != t.version || t.settings.None? then t
    else if t.settings.value.disabled then t.(muted := true)
    else if !t.isVideo then t.(muted := false)
    else t.(muted := false, maxSpatial := Some(spatial),
            maxTemporal := if temporal.Some? then temporal else t.maxTemporal)
  }

  // ---------------------------------------------------------------- runs

  datatype Progress =
    | Begun
    | QualityRead(quality: int)
    | Computed(spatial: int, temporal: Option<int>)

  /** `applies` are the unfinished applies by version; `pending` says that the settings or the
      published layers changed and no apply has begun since. */
  datatype System = System(track: Track, layers: Layers, applies: map<nat, Progress>, pending: bool)

  datatype Event =
    | UpdateSettings(s: Settings, isImmediate: bool)
    | Bound
    | LayersChange(layers: Layers)
    | ApplyBegins
    | ReadQuality(version: nat)
    | ReadRest(version: nat)
    | ApplyEnds(version: nat)

  function Step(y: System, e: Event): System {
    match e
    case UpdateSettings(s, isImmediate) =>
      var (t, schedule) := Update(y.track, s, isImmediate);
      y.(track := t, pending := y.pending || !schedule.NoApply?)
    case Bound =>
      var (t, schedule) := Bind(y.track);
      y.(track := t, pending := y.pending || !schedule.NoApply?)
    case LayersChange(layers) => y.(layers := layers, pending := true)
    case ApplyBegins =>
      if y.track.settings.None? then y
      else
        var t := Begin(y.track);
        y.(track := t, applies := y.applies[t.version := Begun], pending := false)
    case ReadQuality(v) =>
      if v in y.applies && y.applies[v].Begun? && y.track.settings.Some? then
        y.(applies := y.applies[v := QualityRead(y.track.settings.value.quality)])
      else y
    case ReadRest(v) =>
      if v in y.applies && y.applies[v].QualityRead? && y.track.settings.Some? then
        var spatial := Spatial(y.layers, y.applies[v].quality, y.track.settings.value);
        y.(applies := y.applies[v := Computed(spatial, Temporal(y.layers, spatial, y.track.settings.value))])
      else y
    case ApplyEnds(v) =>
      if v in y.applies && y.applies[v].Computed? then
        y.(track := Finish(y.track, v, y.applies[v].spatial, y.applies[v].temporal), applies := y.applies - {v})
      else y
  }

  function Start(isVideo: bool, adaptiveStream: bool, layers: Layers): System {
    System(Track(isVideo, adaptiveStream, None, 0, false, false, None, None), layers, map[], false)
  }

  function Run(y: System, es: seq<Event>): System {
    if es == [] then y else Step(Run(y, es[..|es| - 1]), es[|es| - 1])
  }

  // ------------------------------------------------------------ invariant

  /** The down track is told what the settings say. */
  ghost predicate Reflects(t: Track, layers: Layers) {
    t.settings.Some? ==>
      var s := t.settings.value;
      var spatial := Spatial(layers, s.quality, s);
      && t.muted == s.disabled
      && (!s.disabled && t.isVideo ==>
            && t.maxSpatial == Some(spatial)
            && (s.fps > 0 ==> t.maxTemporal == Temporal(layers, spatial, s)))
  }

  /** What an apply that began after the last change has computed so far. */
  ghost predicate Current(p: Progress, layers: Layers, s: Settings) {
    match p
    case Begun => true
    case QualityRead(quality) => quality == s.quality
    case Computed(spatial, temporal) =>
      spatial == Spatial(layers, s.quality, s) && temporal == Temporal(layers, spatial, s)
  }

  ghost predicate Inv(y: System) {
    && (forall v :: v in y.applies ==> v <= y.track.version)
    && (!y.pending && y.track.settings.Some? ==>
          if y.track.version in y.applies then Current(y.applies[y.track.version], y.layers, y.track.settings.value)
          else Reflects(y.track, y.layers))
  }

  lemma StepKeepsInv(y: System, e: Event)
    requires Inv(y)
    ensures Inv(Step(y, e))
  {
  }

  lemma {:induction false} RunKeepsInv(y: System, es: seq<Event>)
    requires Inv(y)
    ensures Inv(Run(y, es))
  {
    if es != [] {
      RunKeepsInv(y, es[..|es| - 1]);
      StepKeepsInv(Run(y, es[..|es| - 1]), es[|es| - 1]);
    }
  }

  /** Whatever the interleaving, once every scheduled apply has begun and all have ended, the
      down track is muted exactly when the settings say disabled and otherwise limited to
      the layers computed from the current settings. */
  lemma {:induction false} SettlesOnCurrentSettings(isVideo: bool, adaptiveStream: bool, layers: Layers, es: seq<Event>)
    requires var y := Run(Start(isVideo, adaptiveStream, layers), es); !y.pending && y.applies == map[]
    ensures var y := Run(Start(isVideo, adaptiveStream, layers), es); Reflects(y.track, y.layers)
    ensures var t, now := Run(Start(isVideo, adaptiveStream, layers), es).track, Run(Start(isVideo, adaptiveStream, layers), es).layers;
            t.settings.Some? ==>
              var s := t.settings.value;
              var quality := if s.width > 0 then now.qualityForDimension(s.width, s.height) else s.quality;
              var spatial := now.spatialForQuality(quality);
              && (t.muted <==> s.disabled)
              && (!s.disabled && t.isVideo ==>
                    t.maxSpatial == Some(spatial) && (s.fps > 0 ==> t.maxTemporal == Some(now.temporalForFps(spatial, s.fps))))
  {
    RunKeepsInv(Start(isVideo, adaptiveStream, layers), es);
  }

  /** Changed settings are stored and applied, at once when that is asked for or when they unmute;
      equal ones are not. */
  lemma UpdateApplies(t: Track, s: Settings, isImmediate: bool)
    ensures var (u, schedule) := Update(t, s, isImmediate);
            && u == t.(settings := Some(s))
            && (schedule.NoApply? <==> t.settings == Some(s))
            && (schedule.ApplyNow? <==>
                  t.settings != Some(s) && (isImmediate || (!s.disabled && t.settings.Some? && t.settings.value.disabled)))
  {
  }

  /** A bound video track has settings that are applied at once: the highest quality, or the lowest of
      an adaptive stream, unless there are some already, which an adaptive stream enables. */
  lemma BindApplies(t: Track)
    ensures var (u, schedule) := Bind(t);
            && u == t.(bound := true, settings := u.settings)
            && (!t.isVideo ==> u.settings == t.settings && schedule.NoApply?)
            && (t.isVideo ==> u.settings.Some? && schedule.ApplyNow?)
            && (t.isVideo && t.settings.None? ==>
                  u.settings.value.quality == (if t.adaptiveStream then LOW else HIGH) && !u.settings.value.disabled
                  && u.settings.value.width == u.settings.value.height == u.settings.value.fps == 0)
            && (t.isVideo && t.settings.Some? ==>
                  u.settings.value == t.settings.value.(disabled := t.settings.value.disabled && !t.adaptiveStream))
            && LOW == 0 && HIGH == 2
  {
  }

  lemma {:induction false} VersionGrows(y: System, es: seq<Event>)
    ensures y.track.version <= Run(y, es).track.version
  {
    if es != [] {
      VersionGrows(y, es[..|es| - 1]);
      StepKeepsVersion(Run(y, es[..|es| - 1]), es[|es| - 1]);
    }
  }

  lemma StepKeepsVersion(y: System, e: Event)
    ensures y.track.version <= Step(y, e).track.version
  {
  }

  /** Once a later apply has begun, an apply never has an effect again, whenever it ends; and
      when nothing is pending and the latest has ended the outcome is that of the settings. */
  lemma {:induction false} SupersededNeverWins(isVideo: bool, adaptiveStream: bool, layers: Layers, es: seq<Event>, v: nat, more: seq<Event>)
    requires var y := Run(Start(isVideo, adaptiveStream, layers), es); v in y.applies && v != y.track.version
    ensures var y := Run(Start(isVideo, adaptiveStream, layers), es);
            var z := Run(y, more);
            && v < y.track.version && Step(z, ApplyEnds(v)).track == z.track
            && (!z.pending && z.track.version !in z.applies ==> Reflects(z.track, z.layers))
  {
    RunKeepsInv(Start(isVideo, adaptiveStream, layers), es);
    RunKeepsInv(Run(Start(isVideo, adaptiveStream, layers), es), more);
    VersionGrows(Run(Start(isVideo, adaptiveStream, layers), es), more);
  }

  /** The premise that no change is still to be applied matters: an apply that reads around a
      change of settings mixes both, the spatial layer of the old quality with the temporal
      layer of the new frame rate. */
  lemma TornReadShowsUntilApplied(layers: Layers, low: Settings, high: Settings)
    requires !low.disabled && !high.disabled && low.width == 0 && high.width == 0 && low != high && high.fps > 0
    ensures var es := [UpdateSettings(low, true), ApplyBegins, ReadQuality(1), UpdateSettings(high, true), ReadRest(1), ApplyEnds(1)];
            var y := Run(Start(true, false, layers), es);
            var spatial := layers.spatialForQuality(low.quality);
            && y.pending && y.track.settings == Some(high)
            && y.track.maxSpatial == Some(spatial) && y.track.maxTemporal == Some(layers.temporalForFps(spatial, high.fps))
  {
    var e0, e1, e2, e3, e4, e5 := UpdateSettings(low, true), ApplyBegins, ReadQuality(1),
      UpdateSettings(high, true), ReadRest(1), ApplyEnds(1);
    var start := Start(true, false, layers);
    assert [e0][..0] == [] && [e0, e1][..1] == [e0] && [e0, e1, e2][..2] == [e0, e1];
    assert [e0, e1, e2, e3][..3] == [e0, e1, e2] && [e0, e1, e2, e3, e4][..4] == [e0, e1, e2, e3];
    assert [e0, e1, e2, e3, e4, e5][..5] == [e0, e1, e2, e3, e4];
    assert Run(start, [e0]) == Step(start, e0);
    var y2 := Run(start, [e0, e1]);
    assert y2 == Step(Run(start, [e0]), e1) && y2.applies == map[1 := Begun];
    var y3 := Run(start, [e0, e1, e2]);
    assert y3 == Step(y2, e2) && y3.applies[1] == QualityRead(low.quality);
    var y4 := Run(start, [e0, e1, e2, e3]);
    assert y4 == Step(y3, e3);
    var y5 := Run(start, [e0, e1, e2, e3, e4]);
    assert y5 == Step(y4, e4);
  }

  /** The steps of one apply. */
  function Apply(version: nat): seq<Event> {
    [] + [ApplyBegins] + [ReadQuality(version)] + [ReadRest(version)] + [ApplyEnds(version)]
  }

  lemma RunExtends(y: System, es: seq<Event>, e: Event)
    ensures Run(y, es + [e]) == Step(Run(y, es), e)
  {
    assert (es + [e])[..|es|] == es;
  }

  lemma ApplyComputes(y: System)
    requires y.applies == map[] && y.track.settings.Some?
    ensures var s, begun, v := y.track.settings.value, Begin(y.track), y.track.version + 1;
            var spatial := Spatial(y.layers, s.quality, s);
            Step(Step(Step(y, ApplyBegins), ReadQuality(v)), ReadRest(v))
            == System(begun, y.layers, map[v := Computed(spatial, Temporal(y.layers, spatial, s))], false)
  {
    var s, begun, v := y.track.settings.value, Begin(y.track), y.track.version + 1;
    assert Step(y, ApplyBegins) == System(begun, y.layers, map[v := Begun], false);
    assert Step(Step(y, ApplyBegins), ReadQuality(v)) == System(begun, y.layers, map[v := QualityRead(s.quality)], false);
  }

  /** An apply that nothing interrupts takes effect with the settings it finds. */
  lemma UninterruptedApply(y: System)
    requires y.applies == map[] && y.track.settings.Some?
    ensures var s, begun := y.track.settings.value, Begin(y.track);
            var spatial := Spatial(y.layers, s.quality, s);
            var z := Run(y, Apply(begun.version));
            && z.track == Finish(begun, begun.version, spatial, Temporal(y.layers, spatial, s))
            && z.applies == map[] && !z.pending && Reflects(z.track, y.layers)
  {
    var v := y.track.version + 1;
    ApplyComputes(y);
    RunExtends(y, [], ApplyBegins);
    RunExtends(y, [] + [ApplyBegins], ReadQuality(v));
    RunExtends(y, [] + [ApplyBegins] + [ReadQuality(v)], ReadRest(v));
    RunExtends(y, [] + [ApplyBegins] + [ReadQuality(v)] + [ReadRest(v)], ApplyEnds(v));
  }

  // --------------------------------------------------------------- object

  class SubscribedTrack {
    const isVideo: bool
    const adaptiveStream: bool
    var settings: Option<Settings>
    var settingsVersion: nat
    var bound: bool
    var muted: bool
    var maxSpatial: Option<int>
    var maxTemporal: Option<int>

    constructor (isVideo: bool, adaptiveStream: bool)
      ensures State() == Track(isVideo, adaptiveStream, None, 0, false, false, None, None)
    {
      this.isVideo, this.adaptiveStream := isVideo, adaptiveStream;
      settings, settingsVersion, bound, muted, maxSpatial, maxTemporal := None, 0, false, false, None, None;
    }

    ghost function State(): Track
      reads this
    {
      Track(isVideo, adaptiveStream, settings, settingsVersion, bound, muted, maxSpatial, maxTemporal)
    }

    method UpdateSubscriberSettings(s: Settings, isImmediate: bool) returns (schedule: Schedule)
      modifies this
      ensures (State(), schedule) == Update(old(State()), s, isImmediate)
    {
      if settings == Some(s) {
        return NoApply;
      }
      var isMuted := settings.Some? && settings.value.disabled;
      var immediate := isImmediate || (!s.disabled && s.disabled != isMuted);
      settings := Some(s);
      schedule := if immediate then ApplyNow else ApplyDebounced;
    }

    /** Bound, without an error. */
    method Bound() returns (schedule: Schedule)
      modifies this
      ensures (State(), schedule) == Bind(old(State()))
    {
      bound := true;
      if !isVideo {
        return NoApply;
      }
      if settings.Some? {
        if adaptiveStream {
          settings := Some(settings.value.(disabled := false));
        }
      } else {
        settings := Some(Settings(false, if adaptiveStream then LOW else HIGH, 0, 0, 0));
      }
      schedule := ApplyNow;
    }

    /** The version of the apply, or None if there is nothing to apply. */
    method BeginApply() returns (version: Option<nat>)
      modifies this
      ensures State() == Begin(old(State()))
      ensures version == if old(settings).None? then None else Some(settingsVersion)
    {
      if settings.None? {
        return None;
      }
      settingsVersion := settingsVersion + 1;
      version := Some(settingsVersion);
    }

    /** applySettings, where no other goroutine comes between. */
    method ApplySettings(layers: Layers)
      modifies this
      ensures old(settings).None? ==> State() == old(State())
      ensures old(settings).Some? ==>
                State() == Run(System(old(State()), layers, map[], true), Apply(old(settingsVersion) + 1)).track
      ensures Reflects(State(), layers)
    {
      ghost var y := System(State(), layers, map[], true);
      var version := BeginApply();
      if version.None? {
        return;
      }
      var spatial, temporal := INVALID, None;
      if isVideo {
        var quality := settings.value.quality;
        if settings.value.width > 0 {
          quality := layers.qualityForDimension(settings.value.width, settings.value.height);
        }
        spatial := layers.spatialForQuality(quality);
        if settings.value.fps > 0 {
          temporal := Some(layers.temporalForFps(spatial, settings.value.fps));
        }
      }
      UninterruptedApply(y);
      FinishApply(version.value, spatial, temporal);
    }

    method FinishApply(version: nat, spatial: int, temporal: Option<int>)
      requires settings.Some?
      modifies this
      ensures State() == Finish(old(State()), version, spatial, temporal)
    {
      if version != settingsVersion {
        return;
      }
      if settings.value.disabled {
        muted := true;
        return;
      }
      muted := false;
      if isVideo {
        maxSpatial := Some(spatial);
        if temporal.Some? {
          maxTemporal := temporal;
        }
      }
    }
  }
}
