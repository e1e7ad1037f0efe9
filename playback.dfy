/**
 * The logic of the avatar scene (src/components/avatar_scene.jsx) as a pure
 * state machine: the crossfade controller (`playAnimation`, the clip-load
 * callback and the mixer's "finished" handler) and the segment playback
 * scheduler (`scheduleNext` with its two timer callbacks, and the queue push
 * that follows a chat reply).
 *
 * Each event of the scene is a function from the state before it to the
 * state after it. Time is an explicit `now` parameter; a pending timer is
 * recorded in the phase together with the instant it is due. The class in
 * avatar.dfy performs the same events by updating fields in place and is
 * proved to agree with these functions.
 */
module Playback {
  import opened Wrappers
  import opened AnimationRegistry

  /** The animation the scene falls back to; the source writes it literally
      in the "finished" handler and in both timer callbacks. */
  const IdleAnimation: string := "idle"

  /** The prefix that turns a segment's `audio_file` into the URL played. */
  const AudioBase: string := "http://127.0.0.1:8000/"

  /**
   * The property names every plain JavaScript object inherits from
   * `Object.prototype`. The action table is such an object (`{}`), so looking
   * up one of these names without an own entry of that name finds a function
   * (or, for `__proto__`, the prototype object), never an action.
   */
  const ObjectPrototypeNames: set<string> := {
    "constructor", "hasOwnProperty", "isPrototypeOf", "propertyIsEnumerable",
    "toLocaleString", "toString", "valueOf", "__proto__",
    "__defineGetter__", "__defineSetter__", "__lookupGetter__", "__lookupSetter__"}

  /**
   * A mixer action made from one loaded clip. The source compares actions by
   * object identity; each loaded descriptor gets its own action, so `clip`
   * (the name of the descriptor the action was made for) stands for that
   * identity.
   */
  datatype Action = Action(clip: string, loop: LoopMode, clampWhenFinished: bool)

  /** One timed unit of speech and gesture as the chat endpoint returns it.
      Timestamps are milliseconds on the scene's clock. */
  datatype Segment = Segment(
    sentence: string,
    sentiment: string,
    audioFile: Option<string>,
    animation: Option<string>,
    startTimestamp: int,
    endTimestamp: int)

  /**
   * Where the scheduler is. `Waiting`: a segment has been taken off the queue
   * and its start timer is due at `due`. `Active`: its animation and audio
   * have started and its hold timer is due at `due`. `Stalled`: its start
   * timer fired but threw before arming the hold timer, so no timer is
   * pending and the flag is never cleared. Only one segment can be in
   * flight, because the phase holds at most one.
   */
  datatype Phase =
    | Idle
    | Waiting(seg: Segment, due: int)
    | Active(seg: Segment, due: int)
    | Stalled(seg: Segment)

  /** The scene's mutable references, one field each. `fadingOut` is the
      action the most recent crossfade faded out. */
  datatype SceneState = SceneState(
    actions: map<string, Action>,
    active: Option<Action>,
    fadingOut: Option<Action>,
    queue: seq<Segment>,
    isPlaying: bool,
    phase: Phase,
    audio: Option<string>)

  /** The references as the component first creates them. */
  const Initial: SceneState := SceneState(map[], None, None, [], false, Idle, None)

  /** What `actionsRef.current[name]` evaluates to. */
  datatype Property = OwnAction(action: Action) | Inherited | Undefined

  function Lookup(actions: map<string, Action>, name: string): (p: Property)
    ensures p.OwnAction? <==> name in actions
    ensures p.OwnAction? ==> p.action == actions[name]
    ensures p.Inherited? <==> name !in actions && name in ObjectPrototypeNames
  {
    if name in actions then OwnAction(actions[name])
    else if name in ObjectPrototypeNames then Inherited
    else Undefined
  }

  /** `playAnimation(name)` throws a TypeError: the value found is truthy and
      is not the active action, but it has no `reset` method. */
  predicate PlayThrows(actions: map<string, Action>, name: string)
    ensures PlayThrows(actions, name) <==> name !in actions && name in ObjectPrototypeNames
  {
    Lookup(actions, name).Inherited?
  }

  /** JavaScript's `Math.max(0, x)`. */
  function Max0(x: int): (r: nat)
    ensures r >= x
    ensures r == x || r == 0
    ensures x <= 0 ==> r == 0
  {
    if x > 0 then x else 0
  }

  /** One more than the longest delay a browser timer can wait: 2^31 ms. */
  const TimerLimit: int := 0x8000_0000

  /**
   * The timeout a browser timer takes when asked for `ms`: the HTML
   * standard's timer initialisation steps take it as a WebIDL `long`, which
   * reduces it modulo 2^32 into the signed 32-bit range, and then treat a
   * negative timeout as zero. The later step that raises a timeout under
   * 4 ms to 4 ms for timers nested more than five deep is not part of it.
   */
  function TimerDelay(ms: int): (d: nat)
    ensures d < TimerLimit
    ensures 0 <= ms < TimerLimit ==> d == ms
    ensures -TimerLimit <= ms <= 0 ==> d == 0
    ensures d == 0 || d == ms % 0x1_0000_0000
    ensures ms % 0x1_0000_0000 < TimerLimit ==> d == ms % 0x1_0000_0000
    ensures ms % 0x1_0000_0000 >= TimerLimit ==> d == 0
  {
    var wrapped := ms % 0x1_0000_0000;
    var signed := if wrapped >= TimerLimit then wrapped - 0x1_0000_0000 else wrapped;
    Int32Wrap(ms);
    Max0(signed)
  }

  /** The two ranges where the reduction modulo 2^32 is plain. */
  lemma Int32Wrap(ms: int)
    ensures 0 <= ms < 0x1_0000_0000 ==> ms % 0x1_0000_0000 == ms
    ensures -0x1_0000_0000 <= ms < 0 ==> ms % 0x1_0000_0000 == ms + 0x1_0000_0000
  {
    var m := 0x1_0000_0000;
    if 0 <= ms < m {
      assert ms == m * 0 + ms;
    } else if -m <= ms < 0 {
      assert ms == m * -1 + (ms + m);
    }
  }

  /** `startDelay`: the wait before a segment starts, computed when it is
      dequeued. */
  function StartDelay(startTimestamp: int, now: int): (d: nat)
    ensures d >= startTimestamp - now
    ensures startTimestamp <= now ==> d == 0
    ensures now + d == startTimestamp || now + d == now
  {
    Max0(startTimestamp - now)
  }

  /** The timeout of the start timer armed at `now`: the segment starts at
      its timestamp or at once, whichever is later, as long as the wait fits
      in a timer. */
  function StartWait(startTimestamp: int, now: int): (w: nat)
    ensures w < TimerLimit
    ensures startTimestamp - now < TimerLimit ==>
      now + w == if startTimestamp > now then startTimestamp else now
  {
    TimerDelay(StartDelay(startTimestamp, now))
  }

  /** The timeout of the hold timer for `duration = end - start`. */
  function Hold(seg: Segment): (h: nat)
    ensures h < TimerLimit
    ensures 0 <= seg.endTimestamp - seg.startTimestamp < TimerLimit ==>
      h == seg.endTimestamp - seg.startTimestamp
    ensures -TimerLimit <= seg.endTimestamp - seg.startTimestamp <= 0 ==> h == 0
  {
    TimerDelay(seg.endTimestamp - seg.startTimestamp)
  }

  /** `animation || "idle"`: the empty string is falsy, like a missing name. */
  function AnimationFor(seg: Segment): (name: string)
    ensures name != ""
    ensures name == IdleAnimation || seg.animation == Some(name)
    ensures seg.animation.Some? && seg.animation.value != "" ==> name == seg.animation.value
  {
    if seg.animation.Some? && seg.animation.value != "" then seg.animation.value
    else IdleAnimation
  }

  /** The audio handle a started segment opens, if its `audio_file` is truthy. */
  function AudioFor(seg: Segment): (url: Option<string>)
    ensures url.Some? <==> seg.audioFile.Some? && seg.audioFile.value != ""
    ensures url.Some? ==> url.value == AudioBase + seg.audioFile.value
  {
    if seg.audioFile.Some? && seg.audioFile.value != "" then Some(AudioBase + seg.audioFile.value)
    else None
  }

  /** The action the load callback makes for a descriptor. */
  function ActionFor(d: Descriptor): (a: Action)
    ensures a.clip == d.name && a.loop == d.loop && a.clampWhenFinished
  {
    Action(d.name, d.loop, true)
  }

  // ---------------------------------------------------------------------------
  // Invariants

  /** What holds between any two effects inside a callback. */
  ghost predicate Coherent(s: SceneState) {
    && (forall k :: k in s.actions ==> s.actions[k].clip == k)
    && (s.isPlaying <==> !s.phase.Idle?)
    && (!s.phase.Active? ==> s.audio == None)
    && (s.phase.Active? ==> s.audio == AudioFor(s.phase.seg))
  }

  /** What holds whenever no callback is running: in addition, the scheduler
      is idle only when there is nothing left to play. */
  ghost predicate Valid(s: SceneState) {
    Coherent(s) && (!s.isPlaying ==> s.queue == [])
  }

  // ---------------------------------------------------------------------------
  // Crossfade controller

  /**
   * `playAnimation(name)`: a name with no own entry, or the action already
   * active, changes nothing; otherwise the named action fades in and becomes
   * active while the old one fades out. An inherited name also changes
   * nothing, but the call throws (`PlayThrows`).
   */
  function PlayAnimation(s: SceneState, name: string): (r: SceneState)
    ensures r.(active := s.active, fadingOut := s.fadingOut) == s
    ensures name in s.actions ==> r.active == Some(s.actions[name])
    ensures name !in s.actions ==> r == s
  {
    if name !in s.actions || Some(s.actions[name]) == s.active then s
    else s.(active := Some(s.actions[name]), fadingOut := s.active)
  }

  /** The success callback of `loadAnimation(state)`: the action is stored
      under the descriptor's name, and the default one starts playing and
      becomes active (without fading the previous one out). */
  function LoadAnimation(s: SceneState, d: Descriptor): (r: SceneState)
    ensures r.actions.Keys == s.actions.Keys + {d.name}
    ensures r.actions[d.name] == ActionFor(d) && r.actions[d.name].clip == d.name
    ensures r.actions - {d.name} == s.actions - {d.name}
    ensures d.isDefault ==> r.active == Some(r.actions[d.name])
    ensures !d.isDefault ==> r.active == s.active
    ensures r.(actions := s.actions, active := s.active) == s
  {
    s.(actions := s.actions[d.name := ActionFor(d)],
       active := if d.isDefault then Some(ActionFor(d)) else s.active)
  }

  /** Load callbacks arriving in the order `ds` (a failed load never arrives). */
  function LoadAll(s: SceneState, ds: seq<Descriptor>): (r: SceneState)
    ensures r.actions.Keys == s.actions.Keys + Names(ds)
    ensures r.(actions := s.actions, active := s.active) == s
  {
    if ds == [] then s
    else
      var init, last := ds[..|ds| - 1], ds[|ds| - 1];
      assert ds == init + [last];
      NamesSnoc(init, last);
      LoadAnimation(LoadAll(s, init), last)
  }

  /** The mixer's "finished" listener: idle becomes active when it is loaded;
      nothing but the crossfade changes. */
  function OnFinished(s: SceneState): (r: SceneState)
    ensures IdleAnimation in s.actions ==> r.active == Some(s.actions[IdleAnimation])
    ensures r.(active := s.active, fadingOut := s.fadingOut) == s
  {
    PlayAnimation(s, IdleAnimation)
  }

  // ---------------------------------------------------------------------------
  // Scheduler

  /** `scheduleNext()` at time `now`: it changes nothing while a segment is in
      flight or when the queue is empty; otherwise the queue loses exactly its
      head, which becomes the segment in flight with its start timer armed. */
  function ScheduleNext(s: SceneState, now: int): (r: SceneState)
    ensures s.isPlaying || s.queue == [] ==> r == s
    ensures !s.isPlaying && s.queue != [] ==>
      && r.isPlaying && r.phase.Waiting?
      && s.queue == [r.phase.seg] + r.queue
      && r.phase.due == now + StartWait(r.phase.seg.startTimestamp, now)
      && r.actions == s.actions && r.active == s.active && r.fadingOut == s.fadingOut
      && r.audio == s.audio
  {
    if s.isPlaying || s.queue == [] then s
    else
      var seg := s.queue[0];
      s.(queue := s.queue[1..], isPlaying := true,
         phase := Waiting(seg, now + StartWait(seg.startTimestamp, now)))
  }

  /** The tail of `handleSend`: the reply's segments join the back of the
      queue, and unless a segment is in flight, the head of the combined
      queue (if any) is taken off and its start timer armed. */
  function Enqueue(s: SceneState, segs: seq<Segment>, now: int): (r: SceneState)
    ensures !s.isPlaying && s.queue + segs != [] ==> r.phase.Waiting?
    ensures s.queue + segs ==
      (if !s.isPlaying && s.queue + segs != [] then [r.phase.seg] else []) + r.queue
    ensures !s.isPlaying && s.queue + segs != [] ==>
      r.phase.due == now + StartWait(r.phase.seg.startTimestamp, now)
    ensures r.isPlaying <==> s.isPlaying || s.queue + segs != []
    ensures s.isPlaying ==> r.phase == s.phase
    ensures r.actions == s.actions && r.active == s.active && r.fadingOut == s.fadingOut
    ensures r.audio == s.audio
  {
    ScheduleNext(s.(queue := s.queue + segs), now)
  }

  /**
   * The start timer fires at `now`: play the segment's animation, open its
   * audio, arm the hold timer. When `playAnimation` throws, the rest of the
   * callback never runs: no audio opens and no hold timer is armed.
   */
  function OnStartTimer(s: SceneState, now: int): (r: SceneState)
    requires s.phase.Waiting?
    ensures r.queue == s.queue && r.actions == s.actions && r.isPlaying == s.isPlaying
    ensures r.phase.Stalled? <==> PlayThrows(s.actions, AnimationFor(s.phase.seg))
    ensures r.phase.Stalled? ==> r == s.(phase := Stalled(s.phase.seg))
    ensures !r.phase.Stalled? ==> r.phase == Active(s.phase.seg, now + Hold(s.phase.seg))
  {
    var seg := s.phase.seg;
    if PlayThrows(s.actions, AnimationFor(seg)) then s.(phase := Stalled(seg))
    else
      var s1 := PlayAnimation(s, AnimationFor(seg));
      var s2 := if AudioFor(seg).Some? then s1.(audio := AudioFor(seg)) else s1;
      s2.(phase := Active(seg, now + Hold(seg)))
  }

  /** The hold timer fires at `now`: the audio is gone and idle is active (if
      loaded); then either the queue was empty and the scheduler is idle, or
      its head is the new segment in flight, its delay measured from `now`. */
  function OnHoldTimer(s: SceneState, now: int): (r: SceneState)
    requires s.phase.Active?
    ensures r.audio == None && r.actions == s.actions
    ensures IdleAnimation in s.actions ==> r.active == Some(s.actions[IdleAnimation])
    ensures s.queue == [] ==> r.phase.Idle? && !r.isPlaying && r.queue == []
    ensures s.queue != [] ==>
      && r.isPlaying && r.queue == s.queue[1..]
      && r.phase == Waiting(s.queue[0], now + StartWait(s.queue[0].startTimestamp, now))
  {
    var s1 := PlayAnimation(s.(audio := None), IdleAnimation);
    ScheduleNext(s1.(isPlaying := false, phase := Idle), now)
  }

  // ---------------------------------------------------------------------------
  // Lemmas: controller

  /** Both directions: `playAnimation` leaves the state as it was exactly when
      the name is unknown or already the active action. */
  lemma PlayNoopIff(s: SceneState, name: string)
    ensures PlayAnimation(s, name) == s <==> name !in s.actions || s.active == Some(s.actions[name])
  {
  }

  /** Calling `playAnimation(x)` twice in a row is the same as once. */
  lemma PlayIdempotent(s: SceneState, name: string)
    ensures PlayAnimation(PlayAnimation(s, name), name) == PlayAnimation(s, name)
  {
  }

  /** A loaded name different from the current one becomes the active action,
      the old one fades out, and the table and the scheduler are untouched. */
  lemma PlaySwitches(s: SceneState, name: string)
    requires name in s.actions && s.active != Some(s.actions[name])
    ensures var r := PlayAnimation(s, name);
      && r.active == Some(s.actions[name]) && r.fadingOut == s.active
      && r.actions == s.actions && r.queue == s.queue && r.isPlaying == s.isPlaying
      && r.phase == s.phase && r.audio == s.audio
  {
  }

  /** Whatever the current action, after `playAnimation(name)` with a loaded
      name it is that name's action which is active. */
  lemma PlayLoadedIsActive(s: SceneState, name: string)
    requires Coherent(s) && name in s.actions
    ensures var r := PlayAnimation(s, name);
      r.active.Some? && r.active.value == s.actions[name] && r.active.value.clip == name
  {
  }

  /** "finished" requests idle: it makes idle active when idle is loaded, and
      changes nothing at all when idle is already active. */
  lemma FinishedReturnsToIdle(s: SceneState)
    ensures IdleAnimation in s.actions ==> OnFinished(s).active == Some(s.actions[IdleAnimation])
    ensures IdleAnimation in s.actions && s.active == Some(s.actions[IdleAnimation]) ==> OnFinished(s) == s
    ensures IdleAnimation !in s.actions ==> OnFinished(s) == s
  {
  }

  /** The names of the descriptors in `ds`. */
  ghost function Names(ds: seq<Descriptor>): set<string> {
    set d | d in ds :: d.name
  }

  /** Descriptors as the registry provides them: one per name, and the
      default one exactly when it is the one named idle. */
  ghost predicate Consistent(ds: seq<Descriptor>) {
    && (forall d, e :: d in ds && e in ds && d.name == e.name ==> d == e)
    && (forall d :: d in ds ==> (d.isDefault <==> d.name == DefaultName))
  }

  /** The table and active action after loading `ds` into `s`: every loaded
      descriptor's action under its name, every other entry kept, and the
      default's action active exactly when the default loaded. */
  ghost predicate LoadedFrom(r: SceneState, s: SceneState, ds: seq<Descriptor>) {
    && r.actions.Keys == s.actions.Keys + Names(ds)
    && (forall d :: d in ds ==> r.actions[d.name] == ActionFor(d))
    && (forall k :: k in s.actions && k !in Names(ds) ==> r.actions[k] == s.actions[k])
    && (forall d :: d in ds && d.isDefault ==> r.active == Some(ActionFor(d)))
    && (DefaultName !in Names(ds) ==> r.active == s.active)
    && r.(actions := s.actions, active := s.active) == s
  }

  /**
   * Whatever order the load callbacks arrive in, the table afterwards holds
   * the action of every loaded descriptor under its name and keeps every
   * other entry, and the active action is the default's exactly when the
   * default loaded.
   */
  lemma {:induction false} LoadAllTable(s: SceneState, ds: seq<Descriptor>)
    requires Consistent(ds)
    ensures LoadedFrom(LoadAll(s, ds), s, ds)
  {
    if ds != [] {
      var init, last := ds[..|ds| - 1], ds[|ds| - 1];
      assert ds == init + [last];
      assert Consistent(init) by {
        forall d | d in init ensures d in ds { }
      }
      LoadAllTable(s, init);
      LoadStep(LoadAll(s, init), s, init, last);
    }
  }

  /** One more load callback keeps `LoadedFrom`. */
  lemma LoadStep(p: SceneState, s: SceneState, init: seq<Descriptor>, last: Descriptor)
    requires Consistent(init + [last]) && LoadedFrom(p, s, init)
    ensures LoadedFrom(LoadAnimation(p, last), s, init + [last])
  {
    var ds := init + [last];
    var r := LoadAnimation(p, last);
    NamesSnoc(init, last);
    forall d | d in ds ensures r.actions[d.name] == ActionFor(d) {
      if d.name != last.name {
        assert d in init;
      }
    }
    forall d | d in ds && d.isDefault ensures r.active == Some(ActionFor(d)) {
      if d.name != last.name {
        assert d in init;
      }
    }
    forall k | k in s.actions && k !in Names(ds) ensures r.actions[k] == s.actions[k] {
      assert k != last.name && k !in Names(init);
    }
  }

  lemma NamesSnoc(init: seq<Descriptor>, last: Descriptor)
    ensures Names(init + [last]) == Names(init) + {last.name}
    ensures forall d :: d in init + [last] ==> d in init || d == last
  {
    var ds := init + [last];
    forall d | d in ds ensures d in init || d == last {
      var i :| 0 <= i < |ds| && ds[i] == d;
      if i < |init| { assert ds[i] == init[i]; }
    }
    assert last in ds;
    forall d | d in init ensures d in ds { }
  }

  /** The order in which the clips finish loading does not matter. */
  lemma LoadOrderIrrelevant(s: SceneState, ds: seq<Descriptor>, es: seq<Descriptor>)
    requires Consistent(ds) && Consistent(es)
    requires forall d :: d in ds <==> d in es
    ensures LoadAll(s, ds) == LoadAll(s, es)
  {
    var r, q := LoadAll(s, ds), LoadAll(s, es);
    LoadAllTable(s, ds);
    LoadAllTable(s, es);
    SameLoadedFrom(r, q, s, ds, es);
  }

  /** Two results of loading the same descriptors are equal. */
  lemma SameLoadedFrom(r: SceneState, q: SceneState, s: SceneState, ds: seq<Descriptor>, es: seq<Descriptor>)
    requires Consistent(ds) && (forall d :: d in ds <==> d in es)
    requires LoadedFrom(r, s, ds) && LoadedFrom(q, s, es)
    ensures r == q
  {
    SameTable(r, q, s, ds, es);
    SameActive(r, q, s, ds, es);
    assert r.(actions := s.actions, active := s.active) == q.(actions := s.actions, active := s.active);
  }

  lemma SameNames(ds: seq<Descriptor>, es: seq<Descriptor>)
    requires forall d :: d in ds <==> d in es
    ensures Names(ds) == Names(es)
  {
    forall k | k in Names(ds) ensures k in Names(es) {
      var d :| d in ds && d.name == k;
      assert d in es;
    }
    forall k | k in Names(es) ensures k in Names(ds) {
      var d :| d in es && d.name == k;
      assert d in ds;
    }
  }

  lemma SameTable(r: SceneState, q: SceneState, s: SceneState, ds: seq<Descriptor>, es: seq<Descriptor>)
    requires Consistent(ds) && (forall d :: d in ds <==> d in es)
    requires LoadedFrom(r, s, ds) && LoadedFrom(q, s, es)
    ensures r.actions == q.actions
  {
    SameNames(ds, es);
    forall k | k in r.actions ensures k in q.actions && r.actions[k] == q.actions[k] {
      SameEntry(r, q, s, ds, es, k);
    }
    SameMaps(r.actions, q.actions);
  }

  lemma SameMaps(a: map<string, Action>, b: map<string, Action>)
    requires forall k :: k in a ==> k in b && a[k] == b[k]
    requires a.Keys == b.Keys
    ensures a == b
  {
  }

  lemma SameEntry(r: SceneState, q: SceneState, s: SceneState, ds: seq<Descriptor>, es: seq<Descriptor>, k: string)
    requires Names(ds) == Names(es) && (forall d :: d in ds <==> d in es)
    requires LoadedFrom(r, s, ds) && LoadedFrom(q, s, es) && k in r.actions
    ensures k in q.actions && r.actions[k] == q.actions[k]
  {
    if k in Names(ds) {
      var d :| d in ds && d.name == k;
      assert d in es;
    }
  }

  lemma SameActive(r: SceneState, q: SceneState, s: SceneState, ds: seq<Descriptor>, es: seq<Descriptor>)
    requires Consistent(ds) && (forall d :: d in ds <==> d in es)
    requires LoadedFrom(r, s, ds) && LoadedFrom(q, s, es)
    ensures r.active == q.active
  {
    SameNames(ds, es);
    if DefaultName in Names(ds) {
      var d :| d in ds && d.name == DefaultName;
      assert d in es;
    }
  }

  /** Once every clip of the registry has loaded, in any order, every name
      has its action, and idle's is the active one. */
  lemma LoadRegistryResult(ds: seq<Descriptor>)
    requires forall d :: d in ds <==> d in Descriptors()
    ensures var r := LoadAll(Initial, ds);
      && r.actions.Keys == AnimationStates.Keys
      && (forall k :: k in AnimationStates ==> r.actions[k] == ActionFor(AnimationStates[k]))
      && r.active == Some(r.actions[DefaultName])
  {
    RegistryLoadsConsistent(ds);
    LoadCatalogue(ds, AnimationStates);
  }

  /** Loading, from the initial state, descriptors that are exactly the
      entries of a catalogue `cat` keyed by name. */
  lemma LoadCatalogue(ds: seq<Descriptor>, cat: map<string, Descriptor>)
    requires Consistent(ds)
    requires forall k :: k in cat ==> cat[k] in ds && cat[k].name == k
    requires Names(ds) == cat.Keys && DefaultName in cat
    ensures var r := LoadAll(Initial, ds);
      && r.actions.Keys == cat.Keys
      && (forall k :: k in cat ==> r.actions[k] == ActionFor(cat[k]))
      && r.active == Some(r.actions[DefaultName])
  {
    LoadAllTable(Initial, ds);
    var r := LoadAll(Initial, ds);
    forall k | k in cat ensures r.actions[k] == ActionFor(cat[k]) {
      assert cat[k] in ds;
    }
    var dflt := cat[DefaultName];
    assert dflt in ds && dflt.isDefault;
  }

  /** The registry's descriptors, in any order, meet the load lemma's
      requirement and cover every key. */
  lemma RegistryLoadsConsistent(ds: seq<Descriptor>)
    requires forall d :: d in ds <==> d in Descriptors()
    ensures Consistent(ds)
    ensures forall k :: k in AnimationStates ==> AnimationStates[k] in ds
    ensures forall k :: k in AnimationStates ==> AnimationStates[k].name == k
    ensures Names(ds) == AnimationStates.Keys && DefaultName in AnimationStates
  {
    DefaultIsUniqueIdle();
    NamesMatchKeys();
    assert Names(ds) == AnimationStates.Keys by {
      forall k | k in AnimationStates ensures k in Names(ds) {
        NamesMatchKeys();
        assert AnimationStates[k] in ds;
      }
    }
  }

  /** The fallback name the scene uses is the registry's one default. */
  lemma IdleIsRegistryDefault()
    ensures IdleAnimation == DefaultName
    ensures IdleAnimation in AnimationStates && AnimationStates[IdleAnimation].isDefault
    ensures forall k :: k in AnimationStates && AnimationStates[k].isDefault ==> k == IdleAnimation
  {
    DefaultIsUniqueIdle();
  }

  // ---------------------------------------------------------------------------
  // Lemmas: scheduler, one event at a time

  /** The scheduler only moves out of the idle phase by dequeuing. */
  lemma ScheduleNextKeepsValid(s: SceneState, now: int)
    requires Coherent(s)
    ensures Valid(ScheduleNext(s, now))
  {
  }

  lemma PlayKeepsValid(s: SceneState, name: string)
    requires Valid(s)
    ensures Valid(PlayAnimation(s, name))
  {
  }

  lemma LoadKeepsValid(s: SceneState, d: Descriptor)
    requires Valid(s)
    ensures Valid(LoadAnimation(s, d))
  {
  }

  lemma FinishedKeepsValid(s: SceneState)
    requires Valid(s)
    ensures Valid(OnFinished(s))
  {
  }

  lemma EnqueueKeepsValid(s: SceneState, segs: seq<Segment>, now: int)
    requires Valid(s)
    ensures Coherent(s.(queue := s.queue + segs)) && Valid(Enqueue(s, segs, now))
  {
  }

  lemma StartTimerKeepsValid(s: SceneState, now: int)
    requires Valid(s) && s.phase.Waiting?
    ensures Valid(OnStartTimer(s, now))
  {
  }

  /** The hold timer needs only the weaker invariant: it ends by calling
      `scheduleNext`. */
  lemma HoldTimerKeepsValid(s: SceneState, now: int)
    requires Coherent(s) && s.phase.Active?
    ensures Valid(OnHoldTimer(s, now))
  {
  }

  /**
   * When the start timer fires, the segment's animation (idle when it names
   * none) is requested. If that request throws, nothing else happens: the
   * segment stays in flight with no audio and no hold timer. Otherwise an
   * audio handle is opened only for a truthy `audio_file`, and the hold
   * timer is armed.
   */
  lemma StartTimerEffect(s: SceneState, now: int)
    requires Valid(s) && s.phase.Waiting?
    ensures var seg, r := s.phase.seg, OnStartTimer(s, now);
      && r.queue == s.queue && r.isPlaying && r.actions == s.actions
      && (PlayThrows(s.actions, AnimationFor(seg)) ==>
            r.phase == Stalled(seg) && r.audio == None && r.active == s.active)
      && (!PlayThrows(s.actions, AnimationFor(seg)) ==>
            && r.phase == Active(seg, now + Hold(seg))
            && (AnimationFor(seg) in s.actions ==> r.active == Some(s.actions[AnimationFor(seg)]))
            && (AnimationFor(seg) !in s.actions ==> r.active == s.active)
            && (r.audio.Some? <==> seg.audioFile.Some? && seg.audioFile.value != "")
            && (r.audio.Some? ==> r.audio.value == AudioBase + seg.audioFile.value))
  {
  }

  /** A segment without an animation name plays idle for its whole length. */
  lemma MissingAnimationPlaysIdle(s: SceneState, now: int)
    requires Valid(s) && s.phase.Waiting? && s.phase.seg.animation.None?
    requires IdleAnimation in s.actions
    ensures OnStartTimer(s, now).active == Some(s.actions[IdleAnimation])
    ensures OnStartTimer(s, now).phase == Active(s.phase.seg, now + Hold(s.phase.seg))
  {
  }

  /** Once a start timer has thrown, nothing ever plays again: `scheduleNext`
      is a no-op, later replies only pile up in the queue, and no event of
      the controller moves the scheduler. */
  lemma StalledIsPermanent(s: SceneState, now: int, segs: seq<Segment>, name: string, d: Descriptor)
    requires Coherent(s) && s.phase.Stalled?
    ensures ScheduleNext(s, now) == s
    ensures Enqueue(s, segs, now) == s.(queue := s.queue + segs)
    ensures PlayAnimation(s, name).phase == s.phase && OnFinished(s).phase == s.phase
    ensures LoadAnimation(s, d).phase == s.phase
    ensures Timeline(Enqueue(s, segs, now)) == []
    ensures Settle(Enqueue(s, segs, now)) == Enqueue(s, segs, now)
  {
  }

  /** No registry name is inherited from `Object.prototype`, so requesting
      one (as "finished", the chat handler and the animation buttons do)
      never throws, whether or not its clip has loaded. */
  lemma RegistryNamesNeverThrow(actions: map<string, Action>, name: string)
    requires name in AnimationStates
    ensures !PlayThrows(actions, name)
  {
  }

  /** A segment whose animation is `"constructor"` (with no clip of that
      name), pushed while the scene is idle: its start timer throws, the flag
      stays set, and the scene stalls with the segment in flight. */
  lemma ConstructorStalls(s: SceneState, now: int)
    requires Valid(s) && s.phase.Idle? && "constructor" !in s.actions
    ensures var seg := Segment("Hello", "happy", Some("hello.mp3"), Some("constructor"), now, now + 1000);
      var r := Settle(Enqueue(s, [seg], now));
      && r.phase == Stalled(seg) && r.isPlaying && r.queue == [] && r.audio == None
      && r.active == s.active
      && Timeline(Enqueue(s, [seg], now)) == []
  {
    var seg := Segment("Hello", "happy", Some("hello.mp3"), Some("constructor"), now, now + 1000);
    var e := Enqueue(s, [seg], now);
    assert e.phase == Waiting(seg, now) && e.queue == [];
    assert PlayThrows(s.actions, AnimationFor(seg));
  }

  /** A wait of 2^31 ms or more does not happen: the browser reduces it into
      the signed 32-bit range first, so such a segment starts (or ends) far
      too early, for example at once or 5 ms later. */
  lemma LongWaitsWrapAround(now: int)
    ensures StartWait(now + TimerLimit, now) == 0
    ensures StartWait(now + 0x1_0000_0005, now) == 5
    ensures Hold(Segment("", "", None, None, now, now + 0x1_0000_0005)) == 5
  {
  }

  // ---------------------------------------------------------------------------
  // The timeline of a batch of segments

  /** A segment together with the instants its start and hold timers fired. */
  datatype Slot = Slot(segment: Segment, from: int, until: int)

  /**
   * Reference timeline: segments played one after another starting at `t`,
   * each starting when the previous one has ended and its own (reduced)
   * start wait has passed, and lasting its hold.
   */
  function Schedule(segs: seq<Segment>, t: int): seq<Slot>
    decreases |segs|
  {
    if segs == [] then []
    else
      var from := t + StartWait(segs[0].startTimestamp, t);
      var until := from + Hold(segs[0]);
      [Slot(segs[0], from, until)] + Schedule(segs[1..], until)
  }

  /** The instant slot `i` becomes ready to start: when the previous slot
      ends, or `t` for the first. */
  ghost function ReadyAt(r: seq<Slot>, t: int, i: nat): int
    requires i <= |r|
  {
    if i == 0 then t else r[i - 1].until
  }

  /** A segment whose animation request does not throw. */
  ghost predicate Playable(actions: map<string, Action>, seg: Segment) {
    !PlayThrows(actions, AnimationFor(seg))
  }

  ghost predicate AllPlayable(actions: map<string, Action>, segs: seq<Segment>) {
    forall i :: 0 <= i < |segs| ==> Playable(actions, segs[i])
  }

  /** The segments of `segs` up to, not including, the first one that throws. */
  ghost function PlayablePrefix(actions: map<string, Action>, segs: seq<Segment>): seq<Segment>
    decreases |segs|
  {
    if segs == [] || !Playable(actions, segs[0]) then []
    else [segs[0]] + PlayablePrefix(actions, segs[1..])
  }

  /** The segments still to be started from `s`, in order. */
  ghost function Upcoming(s: SceneState): seq<Segment> {
    if s.phase.Waiting? then [s.phase.seg] + s.queue else s.queue
  }

  /** How many timer firings remain before the scheduler is idle. */
  function Pending(s: SceneState): nat {
    2 * |s.queue| + match s.phase
      case Idle => 0
      case Waiting(_, _) => 2
      case Active(_, _) => 1
      case Stalled(_) => 0
  }

  /** The segments the scheduler starts from state `s` when every timer fires
      exactly when it is due and nothing else happens. */
  function Timeline(s: SceneState): seq<Slot>
    decreases Pending(s)
  {
    match s.phase
    case Idle => []
    case Stalled(_) => []
    case Waiting(seg, due) =>
      if PlayThrows(s.actions, AnimationFor(seg)) then []
      else [Slot(seg, due, due + Hold(seg))] + Timeline(OnStartTimer(s, due))
    case Active(_, due) => Timeline(OnHoldTimer(s, due))
  }

  /** The state the scene comes to rest in under the same conditions. */
  function Settle(s: SceneState): SceneState
    decreases Pending(s)
  {
    match s.phase
    case Idle => s
    case Stalled(_) => s
    case Waiting(_, due) => Settle(OnStartTimer(s, due))
    case Active(_, due) => Settle(OnHoldTimer(s, due))
  }

  /** The playable prefix is a prefix, every segment in it is playable, and
      the segment right after it (if any) throws; it is the whole sequence
      exactly when every segment is playable. */
  lemma PlayablePrefixSplits(actions: map<string, Action>, segs: seq<Segment>)
    ensures PlayablePrefix(actions, segs) <= segs
    ensures AllPlayable(actions, PlayablePrefix(actions, segs))
    ensures |PlayablePrefix(actions, segs)| < |segs| ==> !Playable(actions, segs[|PlayablePrefix(actions, segs)|])
    ensures PlayablePrefix(actions, segs) == segs <==> AllPlayable(actions, segs)
  {
    PrefixStopsAtThrow(actions, segs);
  }

  lemma {:induction false} PrefixStopsAtThrow(actions: map<string, Action>, segs: seq<Segment>)
    ensures PlayablePrefix(actions, segs) <= segs
    ensures AllPlayable(actions, PlayablePrefix(actions, segs))
    ensures |PlayablePrefix(actions, segs)| < |segs| ==> !Playable(actions, segs[|PlayablePrefix(actions, segs)|])
    decreases |segs|
  {
    PrefixIsPrefix(actions, segs);
    if segs != [] && Playable(actions, segs[0]) {
      var p := PlayablePrefix(actions, segs);
      var q := PlayablePrefix(actions, segs[1..]);
      PrefixStopsAtThrow(actions, segs[1..]);
      assert p == [segs[0]] + q;
      forall i | 0 <= i < |p| ensures Playable(actions, p[i]) {
        if i > 0 { assert p[i] == q[i - 1]; }
      }
      if |p| < |segs| {
        assert segs[|p|] == segs[1..][|q|];
      }
    }
  }

  lemma {:induction false} PrefixIsPrefix(actions: map<string, Action>, segs: seq<Segment>)
    ensures PlayablePrefix(actions, segs) <= segs
    decreases |segs|
  {
    if segs != [] && Playable(actions, segs[0]) {
      PrefixIsPrefix(actions, segs[1..]);
      assert PlayablePrefix(actions, segs) == [segs[0]] + PlayablePrefix(actions, segs[1..]);
    }
  }

  /** Segments start in queue order: the timeline has one slot per segment,
      in the same order. */
  lemma {:induction false} ScheduleIsFifo(segs: seq<Segment>, t: int)
    ensures |Schedule(segs, t)| == |segs|
    ensures forall i :: 0 <= i < |segs| ==> Schedule(segs, t)[i].segment == segs[i]
  {
    if segs != [] {
      ScheduleIsFifo(segs[1..], t);
      var until := Schedule(segs, t)[0].until;
      ScheduleIsFifo(segs[1..], until);
    }
  }

  /**
   * Segments never overlap: none starts before `t` or before it is ready
   * (every earlier one has ended), each lasts its hold, and when its start
   * wait fits in a timer it starts no earlier than its own start timestamp,
   * as soon as both allow.
   */
  lemma ScheduleNeverOverlaps(segs: seq<Segment>, t: int)
    ensures |Schedule(segs, t)| == |segs|
    ensures forall i :: 0 <= i < |segs| ==>
      && t <= ReadyAt(Schedule(segs, t), t, i) <= Schedule(segs, t)[i].from
      && Schedule(segs, t)[i].until == Schedule(segs, t)[i].from + Hold(segs[i])
    ensures forall i, j :: 0 <= i < j < |segs| ==> Schedule(segs, t)[i].until <= Schedule(segs, t)[j].from
    ensures forall i :: 0 <= i < |segs| && segs[i].startTimestamp - ReadyAt(Schedule(segs, t), t, i) < TimerLimit ==>
      && Schedule(segs, t)[i].from >= segs[i].startTimestamp
      && (Schedule(segs, t)[i].from == ReadyAt(Schedule(segs, t), t, i)
          || Schedule(segs, t)[i].from == segs[i].startTimestamp)
  {
    ScheduleSlots(segs, t);
    ScheduleOrdered(segs, t);
  }

  /** What slot `i` of `r` satisfies on its own. */
  ghost predicate SlotFits(r: seq<Slot>, segs: seq<Segment>, t: int, i: nat)
    requires i < |r| && i < |segs|
  {
    && t <= ReadyAt(r, t, i) <= r[i].from
    && r[i].until == r[i].from + Hold(segs[i])
    && (segs[i].startTimestamp - ReadyAt(r, t, i) < TimerLimit ==>
          && r[i].from >= segs[i].startTimestamp
          && (r[i].from == ReadyAt(r, t, i) || r[i].from == segs[i].startTimestamp))
  }

  lemma {:induction false} ScheduleSlots(segs: seq<Segment>, t: int)
    ensures |Schedule(segs, t)| == |segs|
    ensures forall i :: 0 <= i < |segs| ==> SlotFits(Schedule(segs, t), segs, t, i)
    decreases |segs|
  {
    if segs != [] {
      var r := Schedule(segs, t);
      var until := r[0].until;
      var tail := Schedule(segs[1..], until);
      ScheduleSlots(segs[1..], until);
      assert r == [r[0]] + tail;
      assert SlotFits(r, segs, t, 0);
      forall i | 0 < i < |segs| ensures SlotFits(r, segs, t, i) {
        assert r[i] == tail[i - 1] && segs[i] == segs[1..][i - 1];
        assert ReadyAt(r, t, i) == ReadyAt(tail, until, i - 1);
        assert SlotFits(tail, segs[1..], until, i - 1);
      }
    }
  }

  lemma {:induction false} ScheduleOrdered(segs: seq<Segment>, t: int)
    ensures |Schedule(segs, t)| == |segs|
    ensures forall i, j :: 0 <= i < j < |segs| ==> Schedule(segs, t)[i].until <= Schedule(segs, t)[j].from
    decreases |segs|
  {
    ScheduleIsFifo(segs, t);
    if segs != [] {
      var r := Schedule(segs, t);
      var until := r[0].until;
      var tail := Schedule(segs[1..], until);
      ScheduleOrdered(segs[1..], until);
      ScheduleSlots(segs[1..], until);
      assert r == [r[0]] + tail;
      forall i, j | 0 <= i < j < |segs| ensures r[i].until <= r[j].from {
        assert r[j] == tail[j - 1];
        assert SlotFits(tail, segs[1..], until, j - 1);
        if i > 0 {
          assert r[i] == tail[i - 1];
        }
      }
    }
  }

  /** When the batch's timestamps are already in order (each segment ends no
      earlier than it starts and no later than the next one starts, the first
      at or after `t`) and all of them lie less than 2^31 ms after `t`, every
      segment plays exactly from its start timestamp to its end timestamp. */
  lemma {:induction false} ScheduleOnTime(segs: seq<Segment>, t: int)
    requires forall i :: 0 <= i < |segs| ==>
      t <= segs[i].startTimestamp <= segs[i].endTimestamp < t + TimerLimit
    requires forall i, j :: 0 <= i < j < |segs| ==> segs[i].endTimestamp <= segs[j].startTimestamp
    ensures |Schedule(segs, t)| == |segs|
    ensures forall i :: 0 <= i < |segs| ==>
      Schedule(segs, t)[i] == Slot(segs[i], segs[i].startTimestamp, segs[i].endTimestamp)
  {
    if segs != [] {
      var first := segs[0];
      var tail := segs[1..];
      var until := first.endTimestamp;
      assert t + StartWait(first.startTimestamp, t) == first.startTimestamp;
      assert first.startTimestamp + Hold(first) == until;
      ScheduleStep(segs, t, first.startTimestamp, until);
      forall i | 0 <= i < |tail|
        ensures until <= tail[i].startTimestamp <= tail[i].endTimestamp < until + TimerLimit
      {
        assert tail[i] == segs[i + 1];
      }
      forall i, j | 0 <= i < j < |tail|
        ensures tail[i].endTimestamp <= tail[j].startTimestamp
      {
        assert tail[i] == segs[i + 1] && tail[j] == segs[j + 1];
      }
      ScheduleOnTime(tail, until);
      var r := Schedule(segs, t);
      assert r == [Slot(first, first.startTimestamp, until)] + Schedule(tail, until);
      forall i | 0 <= i < |segs|
        ensures r[i] == Slot(segs[i], segs[i].startTimestamp, segs[i].endTimestamp)
      {
        if i > 0 {
          assert r[i] == Schedule(tail, until)[i - 1] && segs[i] == tail[i - 1];
        }
      }
    }
  }

  /** The operational scheduler with its hold timer pending at `due` plays the
      rest of the queue exactly as the reference timeline says, up to the
      first segment whose animation request throws. */
  lemma {:induction false} TimelineOfActive(s: SceneState)
    requires s.phase.Active?
    ensures Timeline(s) == Schedule(PlayablePrefix(s.actions, s.queue), s.phase.due)
    decreases Pending(s)
  {
    var q, due := s.queue, s.phase.due;
    var r := OnHoldTimer(s, due);
    if q != [] && Playable(s.actions, q[0]) {
      var from := due + StartWait(q[0].startTimestamp, due);
      var until := from + Hold(q[0]);
      WaitingStarts(r, q[0], from, until);
      TimelineOfActive(OnStartTimer(r, from));
      PrefixStep(s.actions, q, due, from, until);
    }
  }

  /** A pending segment that does not throw fills the first slot, from its
      due time `due` to `until`, and hands over to its hold timer. */
  lemma WaitingStarts(w: SceneState, seg: Segment, due: int, until: int)
    requires w.phase == Waiting(seg, due) && Playable(w.actions, seg) && until == due + Hold(seg)
    ensures OnStartTimer(w, due).phase == Active(seg, until)
    ensures OnStartTimer(w, due).queue == w.queue && OnStartTimer(w, due).actions == w.actions
    ensures Timeline(w) == [Slot(seg, due, until)] + Timeline(OnStartTimer(w, due))
  {
    WaitingSlot(w);
  }

  lemma WaitingSlot(s: SceneState)
    requires s.phase.Waiting? && Playable(s.actions, s.phase.seg)
    ensures Timeline(s) == [Slot(s.phase.seg, s.phase.due, s.phase.due + Hold(s.phase.seg))]
                           + Timeline(OnStartTimer(s, s.phase.due))
  {
  }

  lemma ScheduleStep(segs: seq<Segment>, t: int, from: int, until: int)
    requires segs != []
    requires from == t + StartWait(segs[0].startTimestamp, t) && until == from + Hold(segs[0])
    ensures Schedule(segs, t) == [Slot(segs[0], from, until)] + Schedule(segs[1..], until)
  {
  }

  /** The same with the start timer pending: nothing starts at all when the
      pending segment's own animation request throws. */
  lemma TimelineOfWaiting(s: SceneState)
    requires s.phase.Waiting?
    ensures Playable(s.actions, s.phase.seg) ==>
      Timeline(s) == [Slot(s.phase.seg, s.phase.due, s.phase.due + Hold(s.phase.seg))]
                     + Schedule(PlayablePrefix(s.actions, s.queue), s.phase.due + Hold(s.phase.seg))
    ensures !Playable(s.actions, s.phase.seg) ==> Timeline(s) == []
  {
    if Playable(s.actions, s.phase.seg) {
      WaitingTimelineAt(s, s.phase.seg, s.phase.due, s.phase.due + Hold(s.phase.seg), s.actions, s.queue);
    }
  }

  /**
   * A reply's segments pushed onto the queue play after everything already
   * queued or in flight, in the reference timeline's order, until one of
   * them throws; from the idle phase they start from the moment of the
   * push. After a stall, nothing plays.
   */
  lemma EnqueueTimeline(s: SceneState, segs: seq<Segment>, now: int)
    requires Valid(s)
    ensures s.phase.Idle? ==>
      Timeline(Enqueue(s, segs, now)) == Schedule(PlayablePrefix(s.actions, segs), now)
    ensures s.phase.Active? ==>
      Timeline(Enqueue(s, segs, now)) == Schedule(PlayablePrefix(s.actions, s.queue + segs), s.phase.due)
    ensures s.phase.Waiting? && Playable(s.actions, s.phase.seg) ==>
      Timeline(Enqueue(s, segs, now))
        == [Slot(s.phase.seg, s.phase.due, s.phase.due + Hold(s.phase.seg))]
           + Schedule(PlayablePrefix(s.actions, s.queue + segs), s.phase.due + Hold(s.phase.seg))
    ensures s.phase.Waiting? && !Playable(s.actions, s.phase.seg) ==> Timeline(Enqueue(s, segs, now)) == []
    ensures s.phase.Stalled? ==> Timeline(Enqueue(s, segs, now)) == []
  {
    if s.phase.Idle? {
      TimelineFromIdle(s, segs, now);
    } else {
      EnqueueWhilePlaying(s, segs, now);
      TimelineAfterPush(s, s.(queue := s.queue + segs));
    }
  }

  /** `p` is `s` with more segments queued behind the one in flight. */
  lemma TimelineAfterPush(s: SceneState, p: SceneState)
    requires !s.phase.Idle? && p.phase == s.phase && p.actions == s.actions
    ensures s.phase.Active? ==>
      Timeline(p) == Schedule(PlayablePrefix(s.actions, p.queue), s.phase.due)
    ensures s.phase.Waiting? && Playable(s.actions, s.phase.seg) ==>
      Timeline(p) == [Slot(s.phase.seg, s.phase.due, s.phase.due + Hold(s.phase.seg))]
                     + Schedule(PlayablePrefix(s.actions, p.queue), s.phase.due + Hold(s.phase.seg))
    ensures s.phase.Waiting? && !Playable(s.actions, s.phase.seg) ==> Timeline(p) == []
    ensures s.phase.Stalled? ==> Timeline(p) == []
  {
    if s.phase.Active? {
      TimelineOfActive(p);
    } else if s.phase.Waiting? {
      var seg, due := s.phase.seg, s.phase.due;
      if Playable(s.actions, seg) {
        WaitingTimelineAt(p, seg, due, due + Hold(seg), s.actions, p.queue);
      } else {
        TimelineOfWaiting(p);
      }
    }
  }

  /** While a segment is in flight, a push only appends to the queue. */
  lemma EnqueueWhilePlaying(s: SceneState, segs: seq<Segment>, now: int)
    requires s.isPlaying
    ensures Enqueue(s, segs, now) == s.(queue := s.queue + segs)
  {
  }

  lemma TimelineFromIdle(s: SceneState, segs: seq<Segment>, now: int)
    requires Valid(s) && s.phase.Idle?
    ensures Timeline(Enqueue(s, segs, now)) == Schedule(PlayablePrefix(s.actions, segs), now)
  {
    if segs != [] {
      EnqueueFromIdle(s, segs, now);
      if Playable(s.actions, segs[0]) {
        var from := now + StartWait(segs[0].startTimestamp, now);
        WaitingOnBatch(Enqueue(s, segs, now), s.actions, segs, now, from, from + Hold(segs[0]));
      } else {
        TimelineOfWaiting(Enqueue(s, segs, now));
      }
    }
  }

  /** A state waiting on the head of `segs` with the rest queued behind it
      plays the batch as the reference timeline from `now` does. */
  lemma WaitingOnBatch(w: SceneState, actions: map<string, Action>, segs: seq<Segment>, now: int, from: int, until: int)
    requires segs != [] && Playable(actions, segs[0])
    requires from == now + StartWait(segs[0].startTimestamp, now) && until == from + Hold(segs[0])
    requires w.phase == Waiting(segs[0], from) && w.queue == segs[1..] && w.actions == actions
    ensures Timeline(w) == Schedule(PlayablePrefix(actions, segs), now)
  {
    WaitingTimelineAt(w, segs[0], from, until, actions, segs[1..]);
    PrefixStep(actions, segs, now, from, until);
  }

  lemma WaitingTimelineAt(w: SceneState, seg: Segment, due: int, until: int, actions: map<string, Action>, queue: seq<Segment>)
    requires w.phase == Waiting(seg, due) && w.actions == actions && w.queue == queue && Playable(actions, seg)
    requires until == due + Hold(seg)
    ensures Timeline(w) == [Slot(seg, due, until)] + Schedule(PlayablePrefix(actions, queue), until)
  {
    WaitingStarts(w, seg, due, until);
    TimelineOfActive(OnStartTimer(w, due));
  }

  lemma EnqueueFromIdle(s: SceneState, segs: seq<Segment>, now: int)
    requires Valid(s) && s.phase.Idle? && segs != []
    ensures Enqueue(s, segs, now).phase == Waiting(segs[0], now + StartWait(segs[0].startTimestamp, now))
    ensures Enqueue(s, segs, now).queue == segs[1..] && Enqueue(s, segs, now).actions == s.actions
  {
    assert s.queue + segs == segs;
  }

  lemma PrefixStep(actions: map<string, Action>, segs: seq<Segment>, t: int, from: int, until: int)
    requires segs != [] && Playable(actions, segs[0])
    requires from == t + StartWait(segs[0].startTimestamp, t) && until == from + Hold(segs[0])
    ensures Schedule(PlayablePrefix(actions, segs), t)
              == [Slot(segs[0], from, until)] + Schedule(PlayablePrefix(actions, segs[1..]), until)
  {
    var p := PlayablePrefix(actions, segs);
    assert p == [segs[0]] + PlayablePrefix(actions, segs[1..]);
    assert p[0] == segs[0] && p[1..] == PlayablePrefix(actions, segs[1..]);
    ScheduleStep(p, t, from, until);
  }

  /** Calls of `playAnimation` from outside the scheduler (the "think" pose
      while a reply is fetched, the gesture buttons, "finished") never move a
      segment's start or end: the timeline depends only on the scheduler's
      fields and on which names have clips. */
  lemma TimelineIgnoresController(s: SceneState, t: SceneState)
    requires SameSchedule(s, t)
    ensures Timeline(s) == Timeline(t)
  {
    if s.phase.Active? {
      PrefixDependsOnKeys(s.actions, t.actions, s.queue);
      TimelineOfActive(s);
      TimelineOfActive(t);
    } else if s.phase.Waiting? {
      WaitingIgnoresController(s, t);
    }
  }

  lemma WaitingIgnoresController(s: SceneState, t: SceneState)
    requires SameSchedule(s, t) && s.phase.Waiting?
    ensures Timeline(s) == Timeline(t)
  {
    var seg, due := s.phase.seg, s.phase.due;
    PlayableDependsOnKeys(s.actions, t.actions, seg);
    if Playable(s.actions, seg) {
      PrefixDependsOnKeys(s.actions, t.actions, s.queue);
      WaitingTimelineAt(s, seg, due, due + Hold(seg), s.actions, s.queue);
      WaitingTimelineAt(t, seg, due, due + Hold(seg), t.actions, s.queue);
    } else {
      TimelineOfWaiting(s);
      TimelineOfWaiting(t);
    }
  }

  lemma PlayableDependsOnKeys(a: map<string, Action>, b: map<string, Action>, seg: Segment)
    requires a.Keys == b.Keys
    ensures Playable(a, seg) <==> Playable(b, seg)
  {
    assert AnimationFor(seg) in a <==> AnimationFor(seg) in b;
  }

  /** Two states that agree on the scheduler's fields and on which names
      have clips. */
  ghost predicate SameSchedule(s: SceneState, t: SceneState) {
    && s.actions.Keys == t.actions.Keys
    && s.queue == t.queue && s.isPlaying == t.isPlaying && s.phase == t.phase
  }

  /** Whether a segment throws depends only on which names have clips. */
  lemma {:induction false} PrefixDependsOnKeys(a: map<string, Action>, b: map<string, Action>, segs: seq<Segment>)
    requires a.Keys == b.Keys
    ensures PlayablePrefix(a, segs) == PlayablePrefix(b, segs)
    decreases |segs|
  {
    if segs != [] {
      PlayableDependsOnKeys(a, b, segs[0]);
      PrefixDependsOnKeys(a, b, segs[1..]);
    }
  }

  /** In particular, neither an outside `playAnimation` nor "finished" changes
      the timeline. */
  lemma ExternalPlayKeepsTimeline(s: SceneState, name: string)
    ensures Timeline(PlayAnimation(s, name)) == Timeline(s)
    ensures Timeline(OnFinished(s)) == Timeline(s)
  {
    TimelineIgnoresController(PlayAnimation(s, name), s);
    TimelineIgnoresController(OnFinished(s), s);
  }

  /** What a scene at rest after a batch looks like. */
  ghost predicate Drained(r: SceneState, s: SceneState) {
    && r.phase.Idle? && !r.isPlaying && r.queue == [] && r.audio == None
    && r.actions == s.actions
    && (IdleAnimation in s.actions ==> r.active == Some(s.actions[IdleAnimation]))
  }

  /** What a scene stuck after a throwing start timer looks like: the flag
      stays set, no audio is open, the stuck segment is the first upcoming
      one whose animation request throws, and every upcoming segment after
      it is still queued. */
  ghost predicate StuckOn(r: SceneState, s: SceneState, upcoming: seq<Segment>) {
    && r.phase.Stalled? && r.isPlaying && r.audio == None
    && r.actions == s.actions
    && r.phase.seg in upcoming && !Playable(s.actions, r.phase.seg)
    && |PlayablePrefix(s.actions, upcoming)| < |upcoming|
    && r.phase.seg == upcoming[|PlayablePrefix(s.actions, upcoming)|]
    && r.queue == upcoming[|PlayablePrefix(s.actions, upcoming)| + 1..]
  }

  /** Being stuck behind a playable head is being stuck on the same segment
      of the longer sequence. */
  lemma StuckBehind(z: SceneState, s: SceneState, q: seq<Segment>)
    requires q != [] && Playable(s.actions, q[0]) && StuckOn(z, s, q[1..])
    ensures StuckOn(z, s, q)
  {
    var k := |PlayablePrefix(s.actions, q[1..])|;
    assert PlayablePrefix(s.actions, q) == [q[0]] + PlayablePrefix(s.actions, q[1..]);
    assert q[k + 1] == q[1..][k];
    assert q[k + 2..] == q[1..][k + 1..];
  }

  /** A stall on the head itself. */
  lemma StuckAtHead(z: SceneState, s: SceneState, q: seq<Segment>)
    requires q != [] && !Playable(s.actions, q[0])
    requires z.phase == Stalled(q[0]) && z.isPlaying && z.audio == None
    requires z.actions == s.actions && z.queue == q[1..]
    ensures StuckOn(z, s, q)
  {
    assert PlayablePrefix(s.actions, q) == [];
  }

  /** Once the segment in flight is held, the queued ones play one by one.
      If none of them throws, the scheduler ends idle with an empty queue, no
      audio and idle active; otherwise it ends stuck on one that throws. */
  lemma {:induction false} SettleOfActive(s: SceneState)
    requires Coherent(s) && s.phase.Active?
    ensures var r := Settle(s);
      && Valid(r)
      && (AllPlayable(s.actions, s.queue) ==> Drained(r, s))
      && (!AllPlayable(s.actions, s.queue) ==> StuckOn(r, s, s.queue))
    decreases Pending(s)
  {
    var r := OnHoldTimer(s, s.phase.due);
    HoldTimerKeepsValid(s, s.phase.due);
    assert Settle(s) == Settle(r);
    if s.queue != [] {
      var q := s.queue;
      var a := OnStartTimer(r, r.phase.due);
      assert a.queue == q[1..];
      if Playable(s.actions, q[0]) {
        StartTimerKeepsValid(r, r.phase.due);
        SettleOfActive(a);
        AllPlayableCons(s.actions, q);
        var z := Settle(a);
        if !AllPlayable(s.actions, q[1..]) {
          StuckBehind(z, s, q);
        }
      } else {
        assert !AllPlayable(s.actions, q) by {
          assert !Playable(s.actions, q[0]);
        }
        StuckAtHead(a, s, q);
      }
    }
  }

  lemma AllPlayableCons(actions: map<string, Action>, segs: seq<Segment>)
    requires segs != []
    ensures AllPlayable(actions, segs) <==> Playable(actions, segs[0]) && AllPlayable(actions, segs[1..])
  {
    if Playable(actions, segs[0]) && AllPlayable(actions, segs[1..]) {
      forall i | 0 <= i < |segs| ensures Playable(actions, segs[i]) {
        if i > 0 { assert segs[i] == segs[1..][i - 1]; }
      }
    }
  }

  /** The same with the start timer pending, for the segment in flight and
      everything queued behind it. */
  lemma SettleOfWaiting(w: SceneState)
    requires Valid(w) && w.phase.Waiting?
    ensures var r := Settle(w);
      && Valid(r)
      && (AllPlayable(w.actions, Upcoming(w)) ==> Drained(r, w))
      && (!AllPlayable(w.actions, Upcoming(w)) ==> StuckOn(r, w, Upcoming(w)))
  {
    var a := OnStartTimer(w, w.phase.due);
    StartTimerKeepsValid(w, w.phase.due);
    assert Settle(w) == Settle(a);
    var up := Upcoming(w);
    AllPlayableCons(w.actions, up);
    assert up[0] == w.phase.seg && up[1..] == w.queue;
    if a.phase.Active? {
      SettleOfActive(a);
      var z := Settle(a);
      if !AllPlayable(w.actions, w.queue) {
        StuckBehind(z, w, up);
      }
    } else {
      StuckAtHead(a, w, up);
    }
  }

  /**
   * After a push and every timer the push leads to: if the scene had already
   * stalled, it stays stalled and the reply only waits in the queue;
   * otherwise, if no upcoming segment throws, the scene is at rest with idle
   * active (unless there was nothing to play at all), and if one does, the
   * scene ends stuck on such a segment.
   */
  lemma EnqueueSettles(s: SceneState, segs: seq<Segment>, now: int)
    requires Valid(s)
    ensures var r := Settle(Enqueue(s, segs, now));
      && Valid(r) && r.actions == s.actions
      && (s.phase.Stalled? ==> r.phase == s.phase && r.queue == s.queue + segs)
      && (!s.phase.Stalled? && AllPlayable(s.actions, Upcoming(s) + segs) ==>
            && r.phase.Idle? && r.queue == [] && r.audio == None
            && ((segs != [] || !s.phase.Idle?) && IdleAnimation in s.actions ==>
                  r.active == Some(s.actions[IdleAnimation])))
      && (!s.phase.Stalled? && !AllPlayable(s.actions, Upcoming(s) + segs) ==>
            StuckOn(r, s, Upcoming(s) + segs))
  {
    EnqueueKeepsValid(s, segs, now);
    var e := Enqueue(s, segs, now);
    if e.phase.Waiting? {
      assert Upcoming(e) == Upcoming(s) + segs;
      SettleOfWaiting(e);
    } else if e.phase.Active? {
      assert Upcoming(e) == Upcoming(s) + segs;
      SettleOfActive(e);
    }
  }

  /** The two segments of the reply in the scenario below. */
  function Wave(T: int): Segment {
    Segment("Hi", "happy", None, Some("wave"), T, T + 1000)
  }

  function Cheer(T: int): Segment {
    Segment("Yay", "happy", None, Some("cheer"), T + 1000, T + 2500)
  }

  /**
   * The scenario of a two-segment reply pushed at `T` while idle, with the
   * wave and cheer clips loaded: wave is active from `T` to `T + 1000`, cheer
   * from `T + 1000` to `T + 2500`, and idle afterwards.
   */
  lemma WaveThenCheer(s: SceneState, T: int)
    requires Valid(s) && s.phase.Idle?
    requires IdleAnimation in s.actions && "wave" in s.actions && "cheer" in s.actions
    ensures Timeline(Enqueue(s, [Wave(T), Cheer(T)], T))
              == [Slot(Wave(T), T, T + 1000), Slot(Cheer(T), T + 1000, T + 2500)]
    ensures Settle(Enqueue(s, [Wave(T), Cheer(T)], T)).phase.Idle?
    ensures Settle(Enqueue(s, [Wave(T), Cheer(T)], T)).active == Some(s.actions[IdleAnimation])
  {
    WaveThenCheerPlayable(s, T);
    WaveThenCheerTimeline(s, T);
    assert Upcoming(s) + [Wave(T), Cheer(T)] == [Wave(T), Cheer(T)];
    EnqueueSettles(s, [Wave(T), Cheer(T)], T);
  }

  lemma WaveThenCheerPlayable(s: SceneState, T: int)
    requires "wave" in s.actions && "cheer" in s.actions
    ensures AllPlayable(s.actions, [Wave(T), Cheer(T)])
    ensures PlayablePrefix(s.actions, [Wave(T), Cheer(T)]) == [Wave(T), Cheer(T)]
  {
    var segs := [Wave(T), Cheer(T)];
    assert Playable(s.actions, segs[0]) && Playable(s.actions, segs[1]);
    PlayablePrefixSplits(s.actions, segs);
  }

  lemma WaveThenCheerTimeline(s: SceneState, T: int)
    requires Valid(s) && s.phase.Idle?
    requires PlayablePrefix(s.actions, [Wave(T), Cheer(T)]) == [Wave(T), Cheer(T)]
    ensures Timeline(Enqueue(s, [Wave(T), Cheer(T)], T))
              == [Slot(Wave(T), T, T + 1000), Slot(Cheer(T), T + 1000, T + 2500)]
  {
    TimelineFromIdle(s, [Wave(T), Cheer(T)], T);
    WaveThenCheerSchedule(T);
  }

  lemma WaveThenCheerSchedule(T: int)
    ensures Schedule([Wave(T), Cheer(T)], T)
              == [Slot(Wave(T), T, T + 1000), Slot(Cheer(T), T + 1000, T + 2500)]
  {
    var segs := [Wave(T), Cheer(T)];
    ScheduleOnTime(segs, T);
    var r := Schedule(segs, T);
    assert r[0] == Slot(Wave(T), T, T + 1000) && r[1] == Slot(Cheer(T), T + 1000, T + 2500);
  }

  /** The same scenario timer by timer: which action is active and which
      timer is armed after each firing. */
  lemma WaveThenCheerSteps(s: SceneState, T: int)
    requires Valid(s) && s.phase.Idle?
    requires IdleAnimation in s.actions && "wave" in s.actions && "cheer" in s.actions
    ensures Enqueue(s, [Wave(T), Cheer(T)], T).phase == Waiting(Wave(T), T)
    ensures var a1 := OnStartTimer(Enqueue(s, [Wave(T), Cheer(T)], T), T);
      && a1.active == Some(s.actions["wave"]) && a1.phase == Active(Wave(T), T + 1000)
      && OnHoldTimer(a1, T + 1000).phase == Waiting(Cheer(T), T + 1000)
    ensures var a2 := OnStartTimer(OnHoldTimer(OnStartTimer(Enqueue(s, [Wave(T), Cheer(T)], T), T), T + 1000), T + 1000);
      && a2.active == Some(s.actions["cheer"]) && a2.phase == Active(Cheer(T), T + 2500)
      && OnHoldTimer(a2, T + 2500).phase.Idle?
      && OnHoldTimer(a2, T + 2500).active == Some(s.actions[IdleAnimation])
  {
    var e := Enqueue(s, [Wave(T), Cheer(T)], T);
    EnqueueFromIdle(s, [Wave(T), Cheer(T)], T);
    var a1 := OnStartTimer(e, T);
    var h1 := OnHoldTimer(a1, T + 1000);
    assert h1.queue == [];
  }
}
