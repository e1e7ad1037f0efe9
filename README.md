# Avatar segment playback, modelled in Dafny

The avatar scene plays back a chat reply as a list of timed speech segments. Each segment has a sentence, a sentiment, an optional voice clip, an optional animation name, and absolute start and end timestamps. Two pieces of logic sit under the 3D rendering:

- **Animation crossfade controller.** It keeps a table of loaded mixer actions keyed by animation name, plus one active action. `playAnimation(name)` crossfades to the named action. A name with no entry in the table, or the action that is already active, changes nothing. The table is a plain JavaScript object, so a name it inherits from `Object.prototype` (such as `constructor`) finds a function instead of an action, and the call throws. Clip-load callbacks fill the table, and the default descriptor (`idle`) becomes the first active action. The mixer's "finished" event sends the avatar back to `idle`.
- **Segment playback scheduler.** A FIFO queue of segments is guarded by an `isPlaying` flag. `scheduleNext()` does the following:
  1. It takes the head of the queue.
  2. It waits `max(0, start - now)`, then starts the segment's animation (or `idle`) and its audio.
  3. It holds for `end - start`. Both waits are browser timers, which reduce a delay into the signed 32-bit range and treat a negative one as zero. The 4 ms minimum that browsers impose on deeply nested timers is not modelled (see "## Left out").
  4. It stops the audio, returns to `idle`, clears the flag and schedules the next segment.

The project has four modules:

- `registry.dfy`, module `AnimationRegistry`: the static `AnimationStates` catalogue as a constant map, with lemmas about its contents.
- `playback.dfy`, module `Playback`:
  - The whole scene state as one value, and each event as a function from the state before to the state after: `playAnimation`, a clip-load callback, "finished", `scheduleNext`, the two timer callbacks, and the queue push at the end of `handleSend`.
  - A separate reference timeline, `Schedule`, and lemmas tying the operational scheduler to it: FIFO order, no overlap, clamped delays, exact server timing, and either a return to idle or a permanent stall.
- `avatar.dfy`, module `Avatar`: class `AvatarScene`. Its fields are the component's mutable refs, and its methods update them step by step in the source's order. Each method is proved to reach the state the matching `Playback` function computes, and to keep the class invariant. That invariant includes a ghost push/dequeue log proving that segments leave the queue in the order they were pushed.
- `wrappers.dfy`, module `Wrappers`: `Option`, for JavaScript's `null`/`undefined` references.

How the model represents the source:

- **Time** is an explicit `now: int` in milliseconds.
- **Timers.** Each timer firing is a method or function call. The pending timer and the instant it is due are recorded in the phase: `Idle`, `Waiting(seg, due)` or `Active(seg, due)`. A fourth phase, `Stalled(seg)`, records a start callback that threw: no timer is pending and the flag stays set. Because the phase holds at most one segment, at most one segment can be in flight.
- **Audio** is an `Option<string>` handle: the URL that would have been played.
- **Timer delays.** `Playback.TimerDelay` is the timeout a browser timer takes: the requested milliseconds reduced modulo 2^32 into the signed 32-bit range, with a negative result read as zero. This is the WebIDL `long` conversion and the negative-to-zero step of the HTML standard's timer initialisation steps. Their later step, which raises a timeout under 4 ms to 4 ms once timers are nested more than five deep, is left out.
- **Property lookup.** `Playback.Lookup` is `actionsRef.current[name]`: an own action, a member inherited from `Object.prototype` (the names in `ObjectPrototypeNames`), or `undefined`.
- **Action identity.** The source compares mixer actions by object identity. An action is modelled as `Action(clip, loop, clampWhenFinished)`, where `clip` is the name of the descriptor the action was made for. The invariant `actions[k].clip == k` makes "same action" mean "same name".

Behaviours of the code a reader might not expect; the model follows the code:

- The "finished" listener requests `idle` on every "finished" event. It does not first check that the finishing action is the active one (avatar_scene.jsx:81-83).
- A segment whose animation name has no clip does not fall back to `idle`. `playAnimation` ignores the name, and whatever is active stays active. Only an absent or empty (falsy) name becomes `idle` (avatar_scene.jsx:176).
- A segment whose animation name is inherited from `Object.prototype` (`"constructor"`, `"toString"`, `"__proto__"`, ...) makes `next.reset()` throw inside the start callback (avatar_scene.jsx:144-147, 176). The rest of that callback never runs: no audio opens, no hold timer is armed, and `isPlayingRef` is never cleared. From then on `scheduleNext` returns at once, and every later reply only waits in the queue. `Playback.StalledIsPermanent`, `Playback.ConstructorStalls` and the stall cases of `Playback.EnqueueSettles` state this.
- A start timestamp 2^31 ms or more ahead, or a segment at least that long, does not wait that long. The browser reduces the delay modulo 2^32 first, so the timer fires early, possibly at once (`Playback.LongWaitsWrapAround`).
- The hold is computed when the segment is dequeued (avatar_scene.jsx:172), not when it starts. It depends only on the segment, so the value is the same either way.
- The default descriptor's load callback makes its action active without fading out the action that was active before (avatar_scene.jsx:131-134).

## Model

| member | source | states |
|---|---|---|
| AnimationRegistry.NamesMatchKeys | src/components/animations/animation_states.js:3-75 | every descriptor's `name` equals its key, so names are unique |
| AnimationRegistry.DefaultIsUniqueIdle | src/components/animations/animation_states.js:4-10 | exactly one descriptor is the default, and it is `idle` |
| AnimationRegistry.LoopModes | src/components/animations/animation_states.js:8-72 | `idle` and `think` loop; the other eight play once, and exactly those eight can emit "finished" |
| AnimationRegistry.LabelsAndFilesNonEmpty | src/components/animations/animation_states.js:4-73 | every descriptor has a non-empty label and clip path |
| AnimationRegistry.OrderListsEveryKeyOnce | src/components/animations/animation_states.js:3-75 | the declaration order that `Object.values` yields lists each of the ten keys exactly once |
| AnimationRegistry.Descriptors | src/components/avatar_scene.jsx:85 | `Object.values(AnimationStates)` hands the loader every catalogue entry exactly once: as many descriptors as keys, each key's descriptor among them, each one the entry under its own name, no name twice |
| Playback.Max0 | src/components/avatar_scene.jsx:171 | `Math.max(0, x)`: non-negative, at least `x`, and either `x` or zero |
| Playback.TimerDelay | src/components/avatar_scene.jsx:174-192 | the timeout after the WebIDL `long` conversion and the negative-to-zero step is below 2^31 ms: exactly the request when it fits, zero for a request between -2^31 and 0, and otherwise the request modulo 2^32 when that is below 2^31 and zero when it is not |
| Playback.StartDelay | src/components/avatar_scene.jsx:169-171 | the start delay is never negative, is zero when the start timestamp has passed, and otherwise reaches the start timestamp |
| Playback.StartWait | src/components/avatar_scene.jsx:171-174 | the start timer's timeout takes the segment to its start timestamp or starts it at once, whichever is later, whenever the wait fits in a timer |
| Playback.Hold | src/components/avatar_scene.jsx:172-191 | the hold timer's timeout is `end - start` when that fits in a timer, and zero for a length between -2^31 and 0 |
| Playback.LongWaitsWrapAround | src/components/avatar_scene.jsx:171-192 | a wait of exactly 2^31 ms fires at once and one of 2^32 + 5 ms fires after 5 ms, for the start and the hold timer alike |
| Playback.AnimationFor | src/components/avatar_scene.jsx:176 | `animation || "idle"`: never empty; the segment's own name whenever it is non-empty, otherwise `idle` |
| Playback.ActionFor | src/components/avatar_scene.jsx:127-129 | the action made for a loaded clip belongs to that descriptor's name, takes the descriptor's loop mode and clamps when finished |
| Playback.AudioFor | src/components/avatar_scene.jsx:179-180 | an audio handle opens exactly when `audio_file` is truthy, on the base URL followed by the file |
| Playback.Lookup | src/components/avatar_scene.jsx:144 | `actionsRef.current[name]` finds the own entry exactly when the name is in the table; otherwise it finds an inherited member exactly when the name is one of `Object.prototype`'s, and `undefined` for any other name |
| Playback.PlayThrows | src/components/avatar_scene.jsx:144-147 | `playAnimation(name)` throws exactly when the name has no own entry and is one of `Object.prototype`'s names |
| Playback.RegistryNamesNeverThrow | src/components/avatar_scene.jsx:81-83 | requesting any registry name never throws, whether or not its clip has loaded |
| Playback.PlayAnimation | src/components/avatar_scene.jsx:143-150 | `playAnimation` changes only the active and faded-out actions; a name with a clip makes that clip's action active; any other name (missing or inherited) changes nothing |
| Playback.PlayNoopIff | src/components/avatar_scene.jsx:143-146 | `playAnimation` leaves the whole state unchanged if and only if the name has no clip or its action is already active |
| Playback.PlayIdempotent | src/components/avatar_scene.jsx:146 | calling `playAnimation(x)` twice in a row equals calling it once |
| Playback.PlaySwitches | src/components/avatar_scene.jsx:147-149 | a loaded name whose action is not active becomes active, the previous action fades out, and the table and the scheduler are untouched |
| Playback.PlayLoadedIsActive | src/components/avatar_scene.jsx:143-149 | after `playAnimation` with a loaded name, that name's action is active, whichever action was active before |
| Playback.LoadAnimation | src/components/avatar_scene.jsx:126-134 | a load adds the descriptor's name to the table with an action for that clip, keeps every other entry, makes the action active exactly for the default descriptor, and touches nothing else |
| Playback.OnFinished | src/components/avatar_scene.jsx:81-83 | "finished" makes idle active when idle is loaded and changes nothing but the crossfade |
| Playback.LoadAll | src/components/avatar_scene.jsx:85-87 | load callbacks arriving in any order change only the table and the active action, and the table gains exactly the loaded names |
| Playback.FinishedReturnsToIdle | src/components/avatar_scene.jsx:81-83 | "finished" is a no-op when idle is already active or not loaded |
| Playback.LoadAllTable | src/components/avatar_scene.jsx:123-141 | for any arrival order of loads with one descriptor per name and `idle` as the only default: the table gains exactly the loaded names with their actions and keeps all other entries; the default's action is active if it loaded, and otherwise the active action is unchanged |
| Playback.LoadOrderIrrelevant | src/components/avatar_scene.jsx:85-87 | two arrival orders of the same load callbacks end in the same state |
| Playback.LoadRegistryResult | src/components/avatar_scene.jsx:85-87 | once every registry clip has loaded, in any order, all ten names have actions and idle's action is active |
| Playback.IdleIsRegistryDefault | src/components/animations/animation_states.js:4-10 | the literal `"idle"` used as the fallback is the registry's one default descriptor |
| Playback.ScheduleNext | src/components/avatar_scene.jsx:152-173 | `scheduleNext` changes nothing while a segment is in flight or when the queue is empty; otherwise the queue loses exactly its head, which is in flight with the flag set and its start timer due after the browser-reduced `max(0, start - now)`; the controller is untouched |
| Playback.Enqueue | src/components/avatar_scene.jsx:236-238 | the pushed segments join the back of the queue; unless a segment was in flight, the head of the combined queue is taken off with its start timer due after the browser-reduced `max(0, start - now)`; the flag is set exactly when something is in flight afterwards; the table, the active and faded-out actions and the audio are untouched |
| Playback.OnStartTimer | src/components/avatar_scene.jsx:174-184 | the start callback keeps the queue, table and flag; it stalls exactly when the animation request throws, changing nothing else; otherwise it arms the hold timer |
| Playback.OnHoldTimer | src/components/avatar_scene.jsx:185-191 | the hold callback clears the audio and activates idle; then it goes idle if the queue was empty, or else dequeues the head with its delay measured from the new `now` |
| Playback.ScheduleNextKeepsValid | src/components/avatar_scene.jsx:152-157 | after `scheduleNext` the scheduler is idle only if the queue is empty |
| Playback.PlayKeepsValid | src/components/avatar_scene.jsx:143-150 | `playAnimation` keeps the invariant: one phase per flag state, audio open only while a segment is active and only with that segment's file, idle only with an empty queue |
| Playback.LoadKeepsValid | src/components/avatar_scene.jsx:126-134 | the load callback keeps the invariant, including `actions[k].clip == k` |
| Playback.FinishedKeepsValid | src/components/avatar_scene.jsx:81-83 | "finished" keeps the invariant |
| Playback.EnqueueKeepsValid | src/components/avatar_scene.jsx:236-238 | the push and `scheduleNext` keep the invariant |
| Playback.StartTimerKeepsValid | src/components/avatar_scene.jsx:174-184 | the start callback keeps the invariant, whether or not it throws |
| Playback.HoldTimerKeepsValid | src/components/avatar_scene.jsx:185-191 | the hold callback restores the full invariant from the weaker one |
| Playback.StartTimerEffect | src/components/avatar_scene.jsx:174-184 | if the animation request throws, the segment stays in flight with no audio, no hold timer and the same active action; otherwise the segment's animation (`idle` when absent or empty) is requested, the base URL plus `audio_file` opens only when `audio_file` is truthy, and the hold timer is armed |
| Playback.MissingAnimationPlaysIdle | src/components/avatar_scene.jsx:176 | a segment without an animation name plays idle for its whole hold |
| Playback.StalledIsPermanent | src/components/avatar_scene.jsx:143-193 | after a throwing start callback, `scheduleNext` is a no-op, later pushes only grow the queue, no controller event moves the scheduler, and nothing plays again |
| Playback.ConstructorStalls | src/components/avatar_scene.jsx:143-184 | a segment animated `"constructor"` pushed while idle stalls the scene with the flag set, no audio and nothing played |
| Playback.PlayablePrefixSplits | src/components/avatar_scene.jsx:176 | the segments played before a stall are a prefix of the queue, all playable, followed by one that throws; they are the whole queue exactly when none throws |
| Playback.ScheduleIsFifo | src/components/avatar_scene.jsx:152-193 | the reference timeline has one slot per segment, in queue order |
| Playback.ScheduleNeverOverlaps | src/components/avatar_scene.jsx:152-193 | no slot starts before the push time or before the previous slot has ended, each lasts its hold, and when the wait fits in a timer it starts no earlier than its start timestamp and as soon as both allow |
| Playback.ScheduleOnTime | src/components/avatar_scene.jsx:169-172 | when the batch's timestamps are ordered, non-negative in length and within 2^31 ms of the push, every segment plays exactly from its start timestamp to its end timestamp |
| Playback.TimelineOfActive | src/components/avatar_scene.jsx:185-191 | the operational scheduler with a hold pending plays the queue exactly as the reference timeline does, up to the first segment that throws |
| Playback.TimelineOfWaiting | src/components/avatar_scene.jsx:174-192 | the same with a start timer pending; nothing starts when the pending segment throws |
| Playback.EnqueueTimeline | src/components/avatar_scene.jsx:236-238 | pushed segments play after everything already queued or in flight, in reference-timeline order up to the first that throws; from idle they start at the push time; after a stall nothing plays |
| Playback.TimelineIgnoresController | src/components/avatar_scene.jsx:143-150 | the timeline depends only on the scheduler's fields and on which names have clips |
| Playback.ExternalPlayKeepsTimeline | src/components/avatar_scene.jsx:216-230 | calls of `playAnimation` from outside the scheduler and "finished" never change when any segment starts or ends |
| Playback.SettleOfActive | src/components/avatar_scene.jsx:185-191 | after the in-flight segment and all queued ones: if none throws, the scheduler is idle with an empty queue and no audio, and idle is active if loaded; otherwise it is stuck, flag set and no audio, on the first queued segment that throws, with every segment after it still queued |
| Playback.SettleOfWaiting | src/components/avatar_scene.jsx:174-192 | the same with a start timer pending, over the pending segment and the queue: stuck on the first of them that throws, with the rest still queued |
| Playback.EnqueueSettles | src/components/avatar_scene.jsx:236-238 | after a push and every timer it leads to: a stalled scene stays stalled and keeps the reply queued; otherwise, if no upcoming segment throws, the scene is at rest with idle active (unless there was nothing to play), and if one does, it is stuck with the flag set on the first upcoming segment that throws, with every later one, the reply's included, still queued |
| Playback.WaveThenCheer | src/components/avatar_scene.jsx:152-193 | a reply of wave `[T, T+1000)` and cheer `[T+1000, T+2500)` pushed at `T` while idle plays exactly on those intervals, and the scene then rests idle with the idle action active |
| Playback.WaveThenCheerSteps | src/components/avatar_scene.jsx:152-193 | the same reply timer by timer: the start timer is due at `T`, wave is active until the hold at `T+1000`, the next start timer is due then, cheer is active until `T+2500`, and idle is active after the last hold |
| Avatar.AvatarScene.constructor | src/components/avatar_scene.jsx:11-19 | the refs start empty: no actions, no active action, empty queue, flag clear, no audio |
| Avatar.AvatarScene.PlayAnimation | src/components/avatar_scene.jsx:143-150 | the in-place crossfade reaches `Playback.PlayAnimation` of the old state, reports a throw exactly for an inherited name, and keeps the invariant |
| Avatar.AvatarScene.OnAnimationLoaded | src/components/avatar_scene.jsx:126-134 | the in-place load callback reaches `Playback.LoadAnimation` of the old state |
| Avatar.AvatarScene.LoadRegistry | src/components/avatar_scene.jsx:85-87 | loading every registry descriptor in declaration order reaches `Playback.LoadAll` over the catalogue |
| Avatar.AvatarScene.LoadEach | src/components/avatar_scene.jsx:85-87 | the loop over the descriptors runs the load callback for each in turn and reaches `Playback.LoadAll` over them |
| Avatar.AvatarScene.OnFinished | src/components/avatar_scene.jsx:81-83 | the "finished" listener reaches `Playback.OnFinished` of the old state |
| Avatar.AvatarScene.ScheduleNext | src/components/avatar_scene.jsx:152-173 | the in-place dequeue reaches `Playback.ScheduleNext`; the dequeue log grows by exactly the old head, or not at all |
| Avatar.AvatarScene.Enqueue | src/components/avatar_scene.jsx:236-238 | the push and poke reach `Playback.Enqueue`; the push log grows by exactly the pushed segments, keeping queue order equal to push order |
| Avatar.AvatarScene.OnStartTimer | src/components/avatar_scene.jsx:174-184 | the start callback, stopping at a throw, reaches `Playback.OnStartTimer` and keeps the invariant |
| Avatar.AvatarScene.OnHoldTimer | src/components/avatar_scene.jsx:185-191 | the hold callback reaches `Playback.OnHoldTimer`; the dequeue log grows by exactly the next head, if any |

## Left out

- Scene setup is left out because it is rendering over a library whose code is not part of this model. This covers the camera, renderer, lights, background texture, model loading, the render loop and resize handling (avatar_scene.jsx:31-121).
- Crossfade weight ramps (`fadeIn(0.3)` / `fadeOut(0.3)`), `reset()`, `play()`, and mixer time deltas are left out because they are floating-point animation internals. The model keeps only the logical active action and the action last faded out.
- The mixer's own decision of when a play-once clip has finished is left out. "finished" is an event the environment may deliver at any time, and the registry lemma `LoopModes` says which clips can emit it.
- Audio I/O is left out: `new Audio(...)`, `.play()` and `.pause()`. Opening and stopping audio set and clear an `Option<string>` handle, and a failed audio play is not modelled.
- The `fetch` to the chat endpoint and the JSON decoding are left out as network I/O. The reply's segment list is a parameter of `Enqueue`.
- The `playAnimation("think")` and `playAnimation("idle")` calls around the fetch (avatar_scene.jsx:216, 230) are not a separate operation. They are ordinary `PlayAnimation` calls on registry names, which never throw, and `ExternalPlayKeepsTimeline` shows that they do not disturb segment timing.
- Real timers and `performance.now()` are left out as environment services. Each timer firing is an explicit call with the time `now`. There is no cancellation, as in the source.
- Timestamps are integers (milliseconds), not JavaScript floating-point numbers. Missing or non-numeric timestamps, which would make the hold `NaN`, are not modelled.
- A falsy element inside the reply's segment array (avatar_scene.jsx:155) is not modelled, because segments are always records here.
- Failed clip loads (avatar_scene.jsx:137-139) only log in the source. In the model, a failed load is a callback that never arrives: `LoadAll` folds over whichever load callbacks do arrive, in whatever order.
- React state, the message list, auto-scroll, styling and input handling (avatar_scene.jsx:15-29, 242-507) are left out as presentation. So are the animation buttons in src/components/controls/animation_controls.jsx; their presses are ordinary `PlayAnimation` calls.
- Avatar.AvatarScene.LoadRegistry: covers only the case where every load succeeds and the callbacks arrive in declaration order. `Playback.LoadOrderIrrelevant` and `Playback.LoadRegistryResult` cover every other arrival order.
- Playback.EnqueueTimeline: assumes every timer fires exactly when it is due. A late timer shifts that segment and every later one by the lateness. In `Avatar.AvatarScene`, timers may fire late, and the methods require only `now >= due`.
- A descriptor named `__proto__` is not modelled. Its load (avatar_scene.jsx:130) would replace the table's prototype instead of adding an entry. The model stores every descriptor as an own entry, which is what happens for every registry name.
- The TypeError thrown by `playAnimation` is not modelled beyond its effect on the scene: the callback that called it ends at once. The browser's error report is left out.
- Playback.TimerDelay: leaves out the HTML timer step that raises a timeout under 4 ms to 4 ms once the timer nesting level is above 5. Each hold timer is armed inside a start callback and each later start timer inside a hold callback, so every segment of a batch nests two levels deeper. The push from `handleSend` arms the first start timer outside any timer, and the chain restarts only when the scheduler goes idle. So from the fourth segment of such a chain on, a start wait of 0 (back-to-back segments) or a hold under 4 ms lasts 4 ms in a browser. `Playback.StartWait` and `Playback.Hold` inherit this, and so do the timings in `Schedule` and in the timeline lemmas.
- Playback.ScheduleOnTime: "exactly from its start timestamp to its end timestamp" holds for the timeouts modelled. In a browser, the nested-timer minimum above delays each segment from the fourth on whose start wait or hold is under 4 ms, and every later segment with it.
- Fractional delays are not modelled: the WebIDL conversion truncates them, and every time here is a whole number of milliseconds.
