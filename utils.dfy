/** The small helpers of src/utils/utils.ts. `Math.random()` is passed in as a draw in [0, 1). */
module Utils {
  import opened Wrappers

  /** `clamp(val, min, max)`: `min` below the range (checked first), `max` above it, `val` otherwise. */
  function Clamp(val: real, min: real, max: real): (r: real)
    ensures val < min ==> r == min
    ensures min <= val && max < val ==> r == max
    ensures min <= val <= max ==> r == val
    ensures min <= max ==> min <= r <= max
  {
    if val < min then min
    else if val > max then max
    else val
  }

  /** Clamping an already clamped value changes nothing when the range is not empty. */
  lemma ClampIdempotent(val: real, min: real, max: real)
    requires min <= max
    ensures Clamp(Clamp(val, min, max), min, max) == Clamp(val, min, max)
  {
  }

  /** The share `u` of `width`: `Math.random() * width`. */
  function Portion(u: real, width: real): real {
    u * width
  }

  /** A draw in [0, 1) takes a share of a positive width that lies in [0, width). */
  lemma PortionBelow(u: real, width: real)
    requires 0.0 <= u < 1.0 && 0.0 < width
    ensures 0.0 <= Portion(u, width) < width
  {
  }

  /** `randomFloat(min, max)` for the draw `u`: in [min, max) whenever the range is not empty. */
  function RandomFloat(min: real, max: real, u: real): (r: real)
    requires 0.0 <= u < 1.0
    ensures min < max ==> min <= r < max
  {
    if min < max then
      PortionBelow(u, max - min);
      min + Portion(u, max - min)
    else
      min + Portion(u, max - min)
  }

  /** `Math.floor`. */
  function Floor(r: real): int {
    r.Floor
  }

  /**
   * `randomInt(min, max)` for the draw `u`: `min` plus a whole number of steps `k`
   * with `0 <= k < max - min + 1`.
   */
  function RandomInt(min: real, max: real, u: real): (r: real)
    requires 0.0 <= u < 1.0
    ensures var k := r - min; k == k.Floor as real
    ensures min <= max ==> var k := r - min; 0.0 <= k < max - min + 1.0
  {
    if 0.0 < max - min + 1.0 then
      PortionBelow(u, max - min + 1.0);
      min + Floor(Portion(u, max - min + 1.0)) as real
    else
      min + Floor(Portion(u, max - min + 1.0)) as real
  }

  /** For whole bounds `min <= max`, `randomInt` lies in [min, max] and is whole. */
  lemma RandomIntWholeRange(min: int, max: int, u: real)
    requires min <= max && 0.0 <= u < 1.0
    ensures var r := RandomInt(min as real, max as real, u);
      r == r.Floor as real && min as real <= r <= max as real
  {
    var r := RandomInt(min as real, max as real, u);
    var n := (r - min as real).Floor;
    assert r == (min + n) as real;
    assert 0 <= n <= max - min;
  }

  /**
   * With the store's default gain bounds -0.3 and 0.3, `randomInt` draws only -0.3 or 0.7,
   * and 0.7 lies above the upper bound.
   */
  lemma RandomIntDefaultBounds(u: real)
    requires 0.0 <= u < 1.0
    ensures RandomInt(-0.3, 0.3, u) == if u < 0.625 then -0.3 else 0.7
  {
    if u < 0.625 {
      assert Portion(u, 1.6) < 1.0;
    } else {
      assert 1.0 <= Portion(u, 1.6) < 2.0;
    }
  }

  /** `obj[key]`: the value, or `undefined` (None) when the key is missing. */
  function Lookup<K, V>(obj: map<K, V>, key: K): Option<V> {
    if key in obj then Some(obj[key]) else None
  }

  /**
   * `pickObject(obj, pickedKeys)`: a fresh object with exactly the picked keys, each holding
   * what `obj` holds under it. `obj` is a value here, so it cannot change.
   */
  method PickObject<K, V>(obj: map<K, V>, pickedKeys: seq<K>) returns (newObj: map<K, Option<V>>)
    ensures newObj.Keys == set key | key in pickedKeys
    ensures forall key :: key in newObj ==> newObj[key] == Lookup(obj, key)
  {
    newObj := map[];
    for i := 0 to |pickedKeys|
      invariant newObj.Keys == set key | key in pickedKeys[..i]
      invariant forall key :: key in newObj ==> newObj[key] == Lookup(obj, key)
    {
      var key := pickedKeys[i];
      newObj := newObj[key := Lookup(obj, key)];
      assert pickedKeys[..i + 1] == pickedKeys[..i] + [key];
    }
    assert pickedKeys[..|pickedKeys|] == pickedKeys;
  }
}
