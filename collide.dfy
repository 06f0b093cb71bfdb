/**
 * `collide` of src/main.ts and the collision sweep of `update`: one overlapping pair is
 * pushed apart along the line between them, and the sweep visits every index pair
 * `i < j` of the flat particle list once, in increasing order.
 */
module Collisions {
  import opened Vectors
  import opened Physics

  /** `rA + rB - d`, with `d` the distance between the two particles. */
  function Overlap(a: PState, b: PState, sqrt: real -> real): real
    requires IsSqrt(sqrt)
  {
    a.radius + b.radius - Distances(b.translate, a.translate, sqrt).0
  }

  /** The displacement `collide` applies: `(delta * overlap) / 4` per coordinate. */
  function Shift(delta: Vec3, overlap: real): Vec3 {
    Vec3(delta.x * overlap / 4.0, delta.y * overlap / 4.0, delta.z * overlap / 4.0)
  }

  /**
   * `collide(A, B)` on the two states: whether they overlapped, and the states afterwards.
   * The difference `B - A` is not normalised, so the push grows with the distance.
   */
  function Collide(a: PState, b: PState, sqrt: real -> real): (bool, PState, PState)
    requires IsSqrt(sqrt)
  {
    var (d, delta) := Distances(b.translate, a.translate, sqrt);
    var overlap := a.radius + b.radius - d;
    if overlap <= 0.0 then (false, a, b)
    else
      var shift := Shift(delta, overlap);
      (true, a.(translate := Sub(a.translate, shift)), b.(translate := Add(b.translate, shift)))
  }

  lemma ShiftTwice(delta: Vec3, overlap: real)
    ensures Add(delta, Add(Shift(delta, overlap), Shift(delta, overlap))) == Scaled(delta, 1.0 + overlap / 2.0)
  {
  }

  /** A particle pushed against itself does not move: the difference is zero. */
  lemma ShiftOfSelf(t: Vec3, overlap: real)
    ensures Sub(t, Shift(Sub(t, t), overlap)) == t && Add(t, Shift(Sub(t, t), overlap)) == t
  {
  }

  /**
   * `collide` reports a hit exactly when the particles overlap; without one nothing changes.
   * With one, `A + B` is kept, `B - A` grows by the factor `1 + overlap / 2`, and velocities
   * and radii are untouched.
   */
  lemma CollideSpec(a: PState, b: PState, sqrt: real -> real)
    requires IsSqrt(sqrt)
    ensures var (hit, a', b') := Collide(a, b, sqrt);
      && (hit <==> 0.0 < Overlap(a, b, sqrt))
      && (!hit ==> a' == a && b' == b)
      && a'.velocity == a.velocity && b'.velocity == b.velocity
      && a'.radius == a.radius && b'.radius == b.radius
      && Add(a'.translate, b'.translate) == Add(a.translate, b.translate)
      && (hit ==> Sub(b'.translate, a'.translate) ==
                  Scaled(Sub(b.translate, a.translate), 1.0 + Overlap(a, b, sqrt) / 2.0))
  {
    var (d, delta) := Distances(b.translate, a.translate, sqrt);
    var overlap := a.radius + b.radius - d;
    if 0.0 < overlap {
      var shift := Shift(delta, overlap);
      ShiftTwice(delta, overlap);
      assert Sub(Add(b.translate, shift), Sub(a.translate, shift)) == Add(delta, Add(shift, shift));
    }
  }

  /**
   * The pairs the sweep has visited once its outer index is `i` and its inner index `j`:
   * every pair of the rows before `i`, then `(i, i + 1), ..., (i, j - 1)`.
   */
  function SweepPairs(n: nat, i: nat, j: nat): seq<(nat, nat)>
    decreases i, j
  {
    if j <= i + 1 then
      if i == 0 then [] else SweepPairs(n, i - 1, n)
    else SweepPairs(n, i, j - 1) + [(i, j - 1)]
  }

  /** The pairs of `update`'s sweep: `i` from 0 below `n - 1`, `j` from `i + 1` below `n`. */
  function CollisionPairs(n: nat): seq<(nat, nat)> {
    if n == 0 then [] else SweepPairs(n, n - 1, n)
  }

  /** The end of row `i` is the start of row `i + 1`. */
  lemma SweepPairsNextRow(n: nat, i: nat)
    ensures SweepPairs(n, i + 1, i + 2) == SweepPairs(n, i, n)
  {
  }

  /** Where the outer loop stops, the sweep has visited every pair. */
  lemma SweepPairsLastRow(n: nat, i: nat)
    requires (i == 0 && n <= 1) || i + 1 == n
    ensures SweepPairs(n, i, i + 1) == CollisionPairs(n)
  {
  }

  predicate LexLess(p: (nat, nat), q: (nat, nat)) {
    p.0 < q.0 || (p.0 == q.0 && p.1 < q.1)
  }

  predicate StrictlyIncreasing(s: seq<(nat, nat)>) {
    forall k, l :: 0 <= k < l < |s| ==> LexLess(s[k], s[l])
  }

  lemma {:induction false} SweepPairsExact(n: nat, i: nat, j: nat)
    requires i < n && j <= n
    ensures forall p :: p in SweepPairs(n, i, j) <==> p.0 < p.1 < n && (p.0 < i || (p.0 == i && p.1 < j))
    ensures StrictlyIncreasing(SweepPairs(n, i, j))
    decreases i, j
  {
    if j <= i + 1 {
      if i > 0 {
        SweepPairsExact(n, i - 1, n);
      }
    } else {
      SweepPairsExact(n, i, j - 1);
      var prefix := SweepPairs(n, i, j - 1);
      var s := prefix + [(i, j - 1)];
      forall k, l | 0 <= k < l < |s|
        ensures LexLess(s[k], s[l])
      {
        assert s[k] in prefix;
        if l < |prefix| {
          assert s[l] in prefix;
        }
      }
    }
  }

  /**
   * The sweep visits exactly the pairs `i < j` of `n` particles, each once, in increasing
   * lexicographic order.
   */
  lemma CollisionPairsExact(n: nat)
    ensures forall p :: p in CollisionPairs(n) <==> p.0 < p.1 < n
    ensures StrictlyIncreasing(CollisionPairs(n))
  {
    if n > 0 {
      SweepPairsExact(n, n - 1, n);
    }
  }

  predicate PairsInRange(pairs: seq<(nat, nat)>, n: nat) {
    forall k :: 0 <= k < |pairs| ==> pairs[k].0 < pairs[k].1 < n
  }

  lemma CollisionPairsInRange(n: nat)
    ensures PairsInRange(CollisionPairs(n), n)
  {
    CollisionPairsExact(n);
    forall k | 0 <= k < |CollisionPairs(n)|
      ensures CollisionPairs(n)[k].0 < CollisionPairs(n)[k].1 < n
    {
      assert CollisionPairs(n)[k] in CollisionPairs(n);
    }
  }

  /** `collide(particles[i], particles[j])` on the list of states. */
  function CollideAt(q: seq<PState>, i: nat, j: nat, sqrt: real -> real): seq<PState>
    requires IsSqrt(sqrt) && i < |q| && j < |q|
  {
    q[i := Collide(q[i], q[j], sqrt).1][j := Collide(q[i], q[j], sqrt).2]
  }

  /**
   * `collide(particles[i], particles[j])` for the first `k` pairs of a list in turn, each on
   * the states the previous ones left. A pair outside the list of states is skipped.
   */
  function CollideFirst(ps: seq<PState>, pairs: seq<(nat, nat)>, k: nat, sqrt: real -> real): (r: seq<PState>)
    requires IsSqrt(sqrt) && k <= |pairs|
    ensures |r| == |ps|
  {
    if k == 0 then ps
    else
      var q := CollideFirst(ps, pairs, k - 1, sqrt);
      var (i, j) := pairs[k - 1];
      if i < |q| && j < |q| then CollideAt(q, i, j, sqrt) else q
  }

  /** `collide` for every pair of the list in turn. */
  function CollideFold(ps: seq<PState>, pairs: seq<(nat, nat)>, sqrt: real -> real): (r: seq<PState>)
    requires IsSqrt(sqrt)
    ensures |r| == |ps|
  {
    CollideFirst(ps, pairs, |pairs|, sqrt)
  }

  /** Pairs after the first `k` do not matter to the first `k` steps. */
  lemma {:induction false} CollideFirstPrefix(ps: seq<PState>, pairs: seq<(nat, nat)>, more: seq<(nat, nat)>, k: nat,
                                              sqrt: real -> real)
    requires IsSqrt(sqrt) && k <= |pairs|
    ensures CollideFirst(ps, pairs + more, k, sqrt) == CollideFirst(ps, pairs, k, sqrt)
  {
    if k > 0 {
      CollideFirstPrefix(ps, pairs, more, k - 1, sqrt);
      assert (pairs + more)[k - 1] == pairs[k - 1];
    }
  }

  /** One more pair at the end of the list: `collide` on the states the earlier pairs left. */
  lemma CollideFoldStep(ps: seq<PState>, pairs: seq<(nat, nat)>, i: nat, j: nat, sqrt: real -> real)
    requires IsSqrt(sqrt) && i < |ps| && j < |ps|
    ensures CollideFold(ps, pairs + [(i, j)], sqrt) == CollideAt(CollideFold(ps, pairs, sqrt), i, j, sqrt)
  {
    CollideFirstPrefix(ps, pairs, [(i, j)], |pairs|, sqrt);
  }

  /** The sweep's next pair in row `i`: `collide(particles[i], particles[j])` on the states the earlier pairs left. */
  lemma CollideFoldNext(ps: seq<PState>, i: nat, j: nat, sqrt: real -> real)
    requires IsSqrt(sqrt) && i < j < |ps|
    ensures CollideFold(ps, SweepPairs(|ps|, i, j + 1), sqrt) ==
      CollideAt(CollideFold(ps, SweepPairs(|ps|, i, j), sqrt), i, j, sqrt)
  {
    var pairs := SweepPairs(|ps|, i, j);
    assert SweepPairs(|ps|, i, j + 1) == pairs + [(i, j)];
    CollideFoldStep(ps, pairs, i, j, sqrt);
  }

  /** The sum of all positions: the particles' centroid times their number. */
  function SumOfTranslates(ps: seq<PState>): Vec3
    decreases |ps|
  {
    if ps == [] then Zero else Add(SumOfTranslates(ps[..|ps| - 1]), ps[|ps| - 1].translate)
  }

  lemma {:induction false} SumOfUpdate(ps: seq<PState>, i: nat, p: PState)
    requires i < |ps|
    ensures SumOfTranslates(ps[i := p]) == Add(Sub(SumOfTranslates(ps), ps[i].translate), p.translate)
    decreases |ps|
  {
    var n := |ps| - 1;
    var qs := ps[i := p];
    assert qs[..n] == if i < n then ps[..n][i := p] else ps[..n];
    if i < n {
      SumOfUpdate(ps[..n], i, p);
    }
  }

  /** The sweep moves particles but never changes a velocity or a radius. */
  lemma {:induction false} CollideFirstKeepsMotion(ps: seq<PState>, pairs: seq<(nat, nat)>, k: nat, sqrt: real -> real)
    requires IsSqrt(sqrt) && k <= |pairs|
    ensures forall m :: 0 <= m < |ps| ==>
      CollideFirst(ps, pairs, k, sqrt)[m].velocity == ps[m].velocity && CollideFirst(ps, pairs, k, sqrt)[m].radius == ps[m].radius
  {
    if k > 0 {
      var q := CollideFirst(ps, pairs, k - 1, sqrt);
      CollideFirstKeepsMotion(ps, pairs, k - 1, sqrt);
      var (i, j) := pairs[k - 1];
      if i < |q| && j < |q| {
        CollideSpec(q[i], q[j], sqrt);
      }
    }
  }

  /** The sweep never moves the particles' centroid: `collide` moves both partners by opposite amounts. */
  lemma {:induction false} CollideFirstKeepsSum(ps: seq<PState>, pairs: seq<(nat, nat)>, k: nat, sqrt: real -> real)
    requires IsSqrt(sqrt) && k <= |pairs| && PairsInRange(pairs, |ps|)
    ensures SumOfTranslates(CollideFirst(ps, pairs, k, sqrt)) == SumOfTranslates(ps)
  {
    if k > 0 {
      var q := CollideFirst(ps, pairs, k - 1, sqrt);
      CollideFirstKeepsSum(ps, pairs, k - 1, sqrt);
      var (i, j) := pairs[k - 1];
      CollideSpec(q[i], q[j], sqrt);
      var (_, a, b) := Collide(q[i], q[j], sqrt);
      SumOfUpdate(q, i, a);
      SumOfUpdate(q[i := a], j, b);
    }
  }
}
