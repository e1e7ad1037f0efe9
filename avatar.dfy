/**
 * The avatar scene's mutable references (`actionsRef`, `activeActionRef`,
 * `playbackQueueRef`, `isPlayingRef`, `audioRef`) as the fields of one
 * object, and its event handlers as methods that update those fields step
 * by step, in the order src/components/avatar_scene.jsx does. Each method is
 * proved to leave the object in the state the corresponding function of
 * module Playback computes, so everything proved there holds of the object.
 *
 * The ghost fields `pushed` and `dequeued` record every segment ever pushed
 * and every segment ever taken off the queue; the invariant
 * `pushed == dequeued + queue` says that segments leave the queue in the
 * order they entered it.
 */
module Avatar {
  import opened Wrappers
  import opened AnimationRegistry
  import Playback

  type Action = Playback.Action
  type Segment = Playback.Segment

  class AvatarScene {
    var actions: map<string, Action>
    var active: Option<Action>
    var fadingOut: Option<Action>
    var queue: seq<Segment>
    var isPlaying: bool
    var phase: Playback.Phase
    var audio: Option<string>

    ghost var pushed: seq<Segment>
    ghost var dequeued: seq<Segment>

    /** The fields as one value. */
    function State(): Playback.SceneState
      reads this
    {
      Playback.SceneState(actions, active, fadingOut, queue, isPlaying, phase, audio)
    }

    /** Queue order is push order, and the segment in flight is the one
        dequeued last. */
    ghost predicate Fifo()
      reads this
    {
      && pushed == dequeued + queue
      && (!phase.Idle? ==> |dequeued| > 0 && phase.seg == dequeued[|dequeued| - 1])
    }

    /** The object invariant between two handlers. */
    ghost predicate Valid()
      reads this
    {
      Playback.Valid(State()) && Fifo()
    }

    /** The refs as `useRef` first creates them. */
    constructor ()
      ensures Valid() && State() == Playback.Initial
      ensures pushed == [] && dequeued == []
    {
      actions := map[];
      active := None;
      fadingOut := None;
      queue := [];
      isPlaying := false;
      phase := Playback.Idle;
      audio := None;
      pushed := [];
      dequeued := [];
    }

    /** `playAnimation(name)`: look the name up in the table, give up on a
        missing name or the active action, otherwise crossfade to it. `threw`
        reports the TypeError raised when the lookup finds a member inherited
        from `Object.prototype`, which has no `reset`; nothing has been
        assigned by then. */
    method PlayAnimation(name: string) returns (threw: bool)
      modifies this
      ensures threw == Playback.PlayThrows(old(actions), name)
      ensures State() == Playback.PlayAnimation(old(State()), name)
      ensures pushed == old(pushed) && dequeued == old(dequeued)
      ensures old(Playback.Coherent(State())) ==> Playback.Coherent(State())
      ensures old(Valid()) ==> Valid()
    {
      var next := Playback.Lookup(actions, name);
      var current := active;
      match next
      case Undefined =>
        threw := false;
      case Inherited =>
        threw := true;
      case OwnAction(a) =>
        threw := false;
        if Some(a) != current {
          // the new action restarts and fades in while the current one fades out
          fadingOut := current;
          active := Some(a);
        }
    }

    /** The success callback of `loadAnimation(loader, state)`. */
    method OnAnimationLoaded(d: Descriptor)
      modifies this
      ensures State() == Playback.LoadAnimation(old(State()), d)
      ensures pushed == old(pushed) && dequeued == old(dequeued)
      ensures old(Valid()) ==> Valid()
    {
      var action := Playback.ActionFor(d);
      actions := actions[d.name := action];
      if d.isDefault {
        // the default action starts playing
        active := Some(action);
      }
    }

    /**
     * The loop that starts a load for every registry descriptor, in the case
     * where every load succeeds and the callbacks arrive in declaration order.
     * Playback.LoadOrderIrrelevant shows any other arrival order ends in the
     * same state.
     */
    method LoadRegistry()
      modifies this
      ensures State() == Playback.LoadAll(old(State()), Descriptors())
      ensures pushed == old(pushed) && dequeued == old(dequeued)
      ensures old(Valid()) ==> Valid()
    {
      LoadEach(Descriptors());
    }

    /** The load callbacks of `ds`, one after another. */
    method LoadEach(ds: seq<Descriptor>)
      modifies this
      ensures State() == Playback.LoadAll(old(State()), ds)
      ensures pushed == old(pushed) && dequeued == old(dequeued)
      ensures old(Valid()) ==> Valid()
    {
      for i := 0 to |ds|
        invariant State() == Playback.LoadAll(old(State()), ds[..i])
        invariant pushed == old(pushed) && dequeued == old(dequeued)
        invariant old(Valid()) ==> Valid()
      {
        assert ds[..i + 1][..i] == ds[..i];
        OnAnimationLoaded(ds[i]);
      }
      assert ds[..|ds|] == ds;
    }

    /** The mixer's "finished" listener: `playAnimation("idle")`. */
    method OnFinished()
      modifies this
      ensures State() == Playback.OnFinished(old(State()))
      ensures pushed == old(pushed) && dequeued == old(dequeued)
      ensures old(Valid()) ==> Valid()
    {
      var threw := PlayAnimation(Playback.IdleAnimation);
      assert !threw;
    }

    /** `scheduleNext()` at time `now`. */
    method ScheduleNext(now: int)
      requires Playback.Coherent(State()) && Fifo()
      modifies this
      ensures State() == Playback.ScheduleNext(old(State()), now)
      ensures Valid()
      ensures pushed == old(pushed)
      ensures dequeued == if old(isPlaying) || old(queue) == [] then old(dequeued)
                          else old(dequeued) + [old(queue)[0]]
    {
      if isPlaying {
        return;
      }
      if queue == [] {
        return;
      }
      var next := queue[0];
      queue := queue[1..];
      dequeued := dequeued + [next];
      isPlaying := true;
      var startDelay := Playback.StartDelay(next.startTimestamp, now);
      // the start timer is armed for `startDelay`, as the browser reduces it
      phase := Playback.Waiting(next, now + Playback.TimerDelay(startDelay));
    }

    /** The end of `handleSend`: push the reply's segments and poke the
        scheduler. */
    method Enqueue(segs: seq<Segment>, now: int)
      requires Valid()
      modifies this
      ensures State() == Playback.Enqueue(old(State()), segs, now)
      ensures Valid()
      ensures pushed == old(pushed) + segs
    {
      queue := queue + segs;
      pushed := pushed + segs;
      ScheduleNext(now);
    }

    /** The start timer, armed by `scheduleNext`, fires at `now`. If
        `playAnimation` throws, the callback ends there: no audio, no hold
        timer, and the flag stays set. */
    method OnStartTimer(now: int)
      requires Valid() && phase.Waiting? && phase.due <= now
      modifies this
      ensures State() == Playback.OnStartTimer(old(State()), now)
      ensures Valid()
      ensures pushed == old(pushed) && dequeued == old(dequeued)
    {
      var seg := phase.seg;
      var threw := PlayAnimation(Playback.AnimationFor(seg));
      if threw {
        phase := Playback.Stalled(seg);
        return;
      }
      if seg.audioFile.Some? && seg.audioFile.value != "" {
        // a new audio handle opens and starts
        audio := Some(Playback.AudioBase + seg.audioFile.value);
      }
      var duration := seg.endTimestamp - seg.startTimestamp;
      // the hold timer is armed for `duration`, as the browser reduces it
      phase := Playback.Active(seg, now + Playback.TimerDelay(duration));
    }

    /** The hold timer, armed by the start timer, fires at `now`. */
    method OnHoldTimer(now: int)
      requires Valid() && phase.Active? && phase.due <= now
      modifies this
      ensures State() == Playback.OnHoldTimer(old(State()), now)
      ensures Valid()
      ensures pushed == old(pushed)
      ensures dequeued == if old(queue) == [] then old(dequeued) else old(dequeued) + [old(queue)[0]]
    {
      // the audio handle, if any, is paused and dropped
      audio := None;
      var threw := PlayAnimation(Playback.IdleAnimation);
      assert !threw;
      isPlaying := false;
      phase := Playback.Idle;
      ScheduleNext(now);
    }
  }
}
