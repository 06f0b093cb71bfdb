/**
 * The settings store of src/store/store.ts: the record of storable settings with its
 * defaults, one setter per field, the reset action, the list of storable keys and the
 * projection the persistence layer saves. The snapshot value that src/main.ts hands to the
 * store is declared here too, with only the fields the engine reads back.
 */
module Store {
  import opened Wrappers
  import opened Vectors
  import Utils

  datatype HelperVisibility = Hidden | Visible | VisibleWhenDragging

  /** `StorableStates`: every setting the user can change and the app persists. */
  datatype StorableStates = StorableStates(
    radius: real,
    minG: real,
    maxG: real,
    isLimitedVelocity: bool,
    maxVelocity: real,
    velocityDecreaseFactor: real,
    pushBackForce: real,
    zoom: real,
    isSeparated: bool,
    isFakedDepth: bool,
    helperVisibility: HelperVisibility,
    isPaused: bool,
    isSpinning: bool,
    spinningSpeed: real)

  /** `storableStates`: the defaults the store starts from and resets to. */
  const Defaults: StorableStates := StorableStates(
    240.0, -0.3, 0.3, false, 1.0, 0.1, 0.008, 1.0, true, true, VisibleWhenDragging, false, true, 0.002)

  /** A storable field's value, as the store object holds it. */
  datatype Value = Num(n: real) | Flag(b: bool) | Visibility(v: HelperVisibility)

  /** `storableStateKeys = Object.keys(storableStates)`, in declaration order. */
  const StorableStateKeys: seq<string> := [
    "radius", "minG", "maxG", "isLimitedVelocity", "maxVelocity", "velocityDecreaseFactor",
    "pushBackForce", "zoom", "isSeparated", "isFakedDepth", "helperVisibility", "isPaused",
    "isSpinning", "spinningSpeed"]

  /** The names of the store's actions, which live in the same object as the settings. */
  const ActionKeys: seq<string> := [
    "setRadius", "setMinG", "setMaxG", "setIsLimitedVelocity", "setMaxVelocity",
    "setVelocityDecreaseFactor", "setPushBackForce", "setZoom", "setIsSeparated",
    "setIsFakedDepth", "setHelperVisibility", "setIsPaused", "setIsSpinning",
    "setSpinningSpeed", "restoreToDefaultStates"]

  /** `states[key]` for a settings record: the field of that name, if there is one. */
  function Field(s: StorableStates, key: string): (r: Option<Value>)
    ensures r.Some? <==> key in StorableStateKeys
  {
    if key == "radius" then Some(Num(s.radius))
    else if key == "minG" then Some(Num(s.minG))
    else if key == "maxG" then Some(Num(s.maxG))
    else if key == "isLimitedVelocity" then Some(Flag(s.isLimitedVelocity))
    else if key == "maxVelocity" then Some(Num(s.maxVelocity))
    else if key == "velocityDecreaseFactor" then Some(Num(s.velocityDecreaseFactor))
    else if key == "pushBackForce" then Some(Num(s.pushBackForce))
    else if key == "zoom" then Some(Num(s.zoom))
    else if key == "isSeparated" then Some(Flag(s.isSeparated))
    else if key == "isFakedDepth" then Some(Flag(s.isFakedDepth))
    else if key == "helperVisibility" then Some(Visibility(s.helperVisibility))
    else if key == "isPaused" then Some(Flag(s.isPaused))
    else if key == "isSpinning" then Some(Flag(s.isSpinning))
    else if key == "spinningSpeed" then Some(Num(s.spinningSpeed))
    else None
  }

  /** A settings record is determined by its fields: two records that agree on every key are equal. */
  lemma FieldsDetermineRecord(s: StorableStates, t: StorableStates)
    requires forall key :: key in StorableStateKeys ==> Field(s, key) == Field(t, key)
    ensures s == t
  {
    assert Field(s, "radius") == Field(t, "radius");
    assert Field(s, "minG") == Field(t, "minG");
    assert Field(s, "maxG") == Field(t, "maxG");
    assert Field(s, "isLimitedVelocity") == Field(t, "isLimitedVelocity");
    assert Field(s, "maxVelocity") == Field(t, "maxVelocity");
    assert Field(s, "velocityDecreaseFactor") == Field(t, "velocityDecreaseFactor");
    assert Field(s, "pushBackForce") == Field(t, "pushBackForce");
    assert Field(s, "zoom") == Field(t, "zoom");
    assert Field(s, "isSeparated") == Field(t, "isSeparated");
    assert Field(s, "isFakedDepth") == Field(t, "isFakedDepth");
    assert Field(s, "helperVisibility") == Field(t, "helperVisibility");
    assert Field(s, "isPaused") == Field(t, "isPaused");
    assert Field(s, "isSpinning") == Field(t, "isSpinning");
    assert Field(s, "spinningSpeed") == Field(t, "spinningSpeed");
  }

  /** The key list names fourteen distinct fields. */
  lemma StorableStateKeysExact()
    ensures |StorableStateKeys| == 14
    ensures forall i, j :: 0 <= i < j < |StorableStateKeys| ==> StorableStateKeys[i] != StorableStateKeys[j]
  {
  }

  /** No storable key is the name of an action. */
  lemma StorableStateKeysAreNotActions()
    ensures forall key :: key in StorableStateKeys ==> key !in ActionKeys
  {
  }

  /** One entry of the store object: a setting's value or one of the action functions. */
  datatype Entry = Data(value: Value) | Action

  /** The whole store object: the settings spread out as keys, next to the actions. */
  function StoreObject(s: StorableStates): (obj: map<string, Entry>)
    ensures obj.Keys == (set key | key in StorableStateKeys) + (set key | key in ActionKeys)
  {
    map key | key in StorableStateKeys + ActionKeys ::
      if key in StorableStateKeys then Data(Field(s, key).value) else Action
  }

  /** The snapshot of one particle: all `applySnapshot` reads back from it. */
  datatype ParticleSnapshot = ParticleSnapshot(radius: real, translate: Vec3, velocity: Option<Partial>)

  datatype GroupSnapshot = GroupSnapshot(color: string, particles: seq<ParticleSnapshot>)

  /** `GMaps`: gain per (colour of the acting group, colour of the other group). */
  type GMaps = map<string, map<string, real>>

  /** The snapshot value, restricted to the fields `applySnapshot` reads. */
  datatype Snapshot = Snapshot(
    radius: real,
    pushBackForce: real,
    isCheckCollision: bool,
    gMaps: GMaps,
    groups: seq<GroupSnapshot>)

  /**
   * The live store. `isCheckCollision` is a setting src/main.ts reads and toggles although
   * src/store/store.ts does not declare it; `pushed` records every snapshot handed to
   * `pushSnapshot`, whose history keeping is not part of this model.
   */
  class Store {
    var states: StorableStates
    var isCheckCollision: bool
    var pushed: seq<Snapshot>

    /** `storeCreator`: a copy of the defaults. */
    constructor ()
      ensures states == Defaults && !isCheckCollision && pushed == []
    {
      states := Defaults;
      isCheckCollision := false;
      pushed := [];
    }

    method SetRadius(radius: real)
      modifies this`states
      ensures states == old(states).(radius := radius)
    {
      states := states.(radius := radius);
    }

    method SetMinG(minG: real)
      modifies this`states
      ensures states == old(states).(minG := minG)
    {
      states := states.(minG := minG);
    }

    method SetMaxG(maxG: real)
      modifies this`states
      ensures states == old(states).(maxG := maxG)
    {
      states := states.(maxG := maxG);
    }

    method SetIsLimitedVelocity(isLimitedVelocity: bool)
      modifies this`states
      ensures states == old(states).(isLimitedVelocity := isLimitedVelocity)
    {
      states := states.(isLimitedVelocity := isLimitedVelocity);
    }

    method SetMaxVelocity(maxVelocity: real)
      modifies this`states
      ensures states == old(states).(maxVelocity := maxVelocity)
    {
      states := states.(maxVelocity := maxVelocity);
    }

    method SetVelocityDecreaseFactor(velocityDecreaseFactor: real)
      modifies this`states
      ensures states == old(states).(velocityDecreaseFactor := velocityDecreaseFactor)
    {
      states := states.(velocityDecreaseFactor := velocityDecreaseFactor);
    }

    method SetPushBackForce(pushBackForce: real)
      modifies this`states
      ensures states == old(states).(pushBackForce := pushBackForce)
    {
      states := states.(pushBackForce := pushBackForce);
    }

    method SetZoom(zoom: real)
      modifies this`states
      ensures states == old(states).(zoom := zoom)
    {
      states := states.(zoom := zoom);
    }

    method SetIsSeparated(isSeparated: bool)
      modifies this`states
      ensures states == old(states).(isSeparated := isSeparated)
    {
      states := states.(isSeparated := isSeparated);
    }

    method SetIsFakedDepth(isFakedDepth: bool)
      modifies this`states
      ensures states == old(states).(isFakedDepth := isFakedDepth)
    {
      states := states.(isFakedDepth := isFakedDepth);
    }

    method SetHelperVisibility(helperVisibility: HelperVisibility)
      modifies this`states
      ensures states == old(states).(helperVisibility := helperVisibility)
    {
      states := states.(helperVisibility := helperVisibility);
    }

    method SetIsPaused(isPaused: bool)
      modifies this`states
      ensures states == old(states).(isPaused := isPaused)
    {
      states := states.(isPaused := isPaused);
    }

    method SetIsSpinning(isSpinning: bool)
      modifies this`states
      ensures states == old(states).(isSpinning := isSpinning)
    {
      states := states.(isSpinning := isSpinning);
    }

    method SetSpinningSpeed(spinningSpeed: real)
      modifies this`states
      ensures states == old(states).(spinningSpeed := spinningSpeed)
    {
      states := states.(spinningSpeed := spinningSpeed);
    }

    method SetIsCheckCollision(isCheckCollision: bool)
      modifies this`isCheckCollision
      ensures this.isCheckCollision == isCheckCollision
    {
      this.isCheckCollision := isCheckCollision;
    }

    /** `restoreToDefaultStates`: every storable field back to its default; nothing else changes. */
    method RestoreToDefaultStates()
      modifies this`states
      ensures states == Defaults
      ensures forall key :: key in StorableStateKeys ==> Field(states, key) == Field(Defaults, key)
    {
      states := Defaults;
    }

    /** `pushSnapshot`: hands a snapshot to the history, which this model only records. */
    method PushSnapshot(snapshot: Snapshot)
      modifies this`pushed
      ensures pushed == old(pushed) + [snapshot]
    {
      pushed := pushed + [snapshot];
    }

    /**
     * `partialize`: the object the persistence layer saves, `pickObject(state, storableStateKeys)`.
     * It holds exactly the storable keys, each with the live value, and no action.
     */
    method Partialize() returns (persisted: map<string, Option<Entry>>)
      ensures persisted.Keys == set key | key in StorableStateKeys
      ensures forall key :: key in persisted ==> persisted[key] == Some(Data(Field(states, key).value))
    {
      persisted := Utils.PickObject(StoreObject(states), StorableStateKeys);
    }
  }
}
