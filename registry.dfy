/**
 * The static catalogue of animations the avatar can play
 * (`AnimationStates` in src/components/animations/animation_states.js).
 * Each entry is a descriptor keyed by its name; the controller creates one
 * action per descriptor when its clip has loaded.
 */
module AnimationRegistry {

  /** `THREE.LoopRepeat` plays forever; `THREE.LoopOnce` plays once and then
      signals "finished". */
  datatype LoopMode = LoopRepeat | LoopOnce

  /** One animation descriptor. A missing `isDefault` is JavaScript-falsy and
      reads as `false`. */
  datatype Descriptor = Descriptor(
    name: string,
    caption: string,
    file: string,
    loop: LoopMode,
    isDefault: bool)

  /** The catalogue, key by key as in the source. */
  const AnimationStates: map<string, Descriptor> := map[
    "idle" := Descriptor("idle", "Idle",
                         "/remy_animations/remy_idle.fbx", LoopRepeat, true),
    "hipHop" := Descriptor("hipHop", "Hip Hop \U{1F483}",
                           "/remy_animations/remy_hip_hop_dancing.fbx", LoopOnce, false),
    "cheer" := Descriptor("cheer", "Cheer \U{1F389}",
                          "/remy_animations/remy_cheering.fbx", LoopOnce, false),
    "sad" := Descriptor("sad", "Sad \U{1F614}",
                        "/remy_animations/remy_sad.fbx", LoopOnce, false),
    "happy" := Descriptor("happy", "Happy \U{1F642}",
                          "/remy_animations/remy_happy.fbx", LoopOnce, false),
    "jump" := Descriptor("jump", "Jump \U{1F998}",
                         "/remy_animations/remy_jump.fbx", LoopOnce, false),
    "talk" := Descriptor("talk", "Talk \U{1F5E3}\U{FE0F}",
                         "/remy_animations/remy_talk.fbx", LoopOnce, false),
    "disappointed" := Descriptor("disappointed", "Disappointed \U{1F61E}",
                                 "/remy_animations/remy_disappointed.fbx", LoopOnce, false),
    "wave" := Descriptor("wave", "Wave \U{1F44B}",
                         "/remy_animations/remy_wave.fbx", LoopOnce, false),
    "think" := Descriptor("think", "Think \U{1F44B}",
                          "/remy_animations/remy_thinking.fbx", LoopRepeat, false)
  ]

  /** The keys in declaration order, which is the order `Object.values`
      hands the descriptors to the loader. */
  const Order: seq<string> :=
    ["idle", "hipHop", "cheer", "sad", "happy", "jump", "talk",
     "disappointed", "wave", "think"]

  /**
   * `Object.values(AnimationStates)`: every descriptor of the catalogue
   * exactly once (taken in declaration order), each one the entry stored
   * under its own name.
   */
  function Descriptors(): (ds: seq<Descriptor>)
    ensures |ds| == |AnimationStates|
    ensures forall k :: k in AnimationStates ==> AnimationStates[k] in ds
    ensures forall d :: d in ds ==> d.name in AnimationStates && AnimationStates[d.name] == d
    ensures forall i, j :: 0 <= i < j < |ds| ==> ds[i].name != ds[j].name
  {
    OrderListsEveryKeyOnce();
    var ds := seq(|Order|, i requires 0 <= i < |Order| => AnimationStates[Order[i]]);
    ListedInOrder(ds);
    ds
  }

  /** The facts behind `Descriptors`' contract, for the sequence it builds. */
  lemma ListedInOrder(ds: seq<Descriptor>)
    requires |ds| == |Order|
    requires forall i :: 0 <= i < |Order| ==> Order[i] in AnimationStates && ds[i] == AnimationStates[Order[i]]
    ensures forall k :: k in AnimationStates ==> AnimationStates[k] in ds
    ensures forall d :: d in ds ==> d.name in AnimationStates && AnimationStates[d.name] == d
    ensures forall i, j :: 0 <= i < j < |ds| ==> ds[i].name != ds[j].name
  {
    OrderListsEveryKeyOnce();
    NamesMatchKeys();
    forall k | k in AnimationStates ensures AnimationStates[k] in ds {
      var i :| 0 <= i < |Order| && Order[i] == k;
      assert ds[i] == AnimationStates[k];
    }
    forall d | d in ds ensures d.name in AnimationStates && AnimationStates[d.name] == d {
      var i :| 0 <= i < |ds| && ds[i] == d;
      assert d.name == Order[i];
    }
    forall i, j | 0 <= i < j < |ds| ensures ds[i].name != ds[j].name {
      assert ds[i].name == Order[i] && ds[j].name == Order[j];
    }
  }

  /** The name of the one default descriptor: the resting pose. */
  const DefaultName: string := "idle"

  /** Only a play-once clip ever raises the mixer's "finished" event. */
  predicate EmitsFinished(d: Descriptor) {
    d.loop == LoopOnce
  }

  /** Every descriptor's `name` equals its key, so names are unique. */
  lemma NamesMatchKeys()
    ensures forall k :: k in AnimationStates ==> AnimationStates[k].name == k
  {
  }

  /** Exactly one descriptor is the default, and it is `idle`. */
  lemma DefaultIsUniqueIdle()
    ensures DefaultName in AnimationStates && AnimationStates[DefaultName].isDefault
    ensures forall k :: k in AnimationStates ==> (AnimationStates[k].isDefault <==> k == DefaultName)
    ensures (set k | k in AnimationStates && AnimationStates[k].isDefault) == {DefaultName}
  {
  }

  /** `idle` and `think` loop forever; the other eight play once, and so they
      are exactly the descriptors that can raise "finished". */
  lemma LoopModes()
    ensures forall k :: k in AnimationStates ==>
      (AnimationStates[k].loop == LoopRepeat <==> k == "idle" || k == "think")
    ensures (set k | k in AnimationStates && EmitsFinished(AnimationStates[k]))
         == {"hipHop", "cheer", "sad", "happy", "jump", "talk", "disappointed", "wave"}
  {
  }

  /** Every descriptor carries a non-empty caption (the source's `label`) and clip path. */
  lemma LabelsAndFilesNonEmpty()
    ensures forall k :: k in AnimationStates ==>
      |AnimationStates[k].caption| > 0 && |AnimationStates[k].file| > 0
  {
  }

  /** The declaration order lists every key exactly once. */
  lemma OrderListsEveryKeyOnce()
    ensures |Order| == |AnimationStates|
    ensures forall k :: k in AnimationStates <==> k in Order
    ensures forall i, j :: 0 <= i < j < |Order| ==> Order[i] != Order[j]
  {
    RegistrySize();
    OrderIsKeys();
    OrderDistinct();
  }

  lemma RegistrySize()
    ensures |AnimationStates| == 10
  {
  }

  lemma OrderIsKeys()
    ensures forall k :: k in AnimationStates <==> k in Order
  {
  }

  lemma OrderDistinct()
    ensures forall i, j :: 0 <= i < j < |Order| ==> Order[i] != Order[j]
  {
  }
}
