/**
 * The arithmetic of the particle engine in src/main.ts, on values: what `rule`, `collide`
 * and the physics half of `update` do to the particles' states. Particles are addressed by
 * their index in the flat `particles` list; a group is the list of its members' indices.
 */
module Physics {
  import opened Vectors

  /** The simulated state of one `Particle`. */
  datatype PState = PState(translate: Vec3, velocity: Vec3, radius: real)

  /** The two store settings the physics reads: the containment radius and the pull back. */
  datatype Env = Env(radius: real, pushBackForce: real)

  /** A group as the physics sees it: its colour and its members' indices. */
  datatype Span = Span(color: string, members: seq<nat>)

  /** Beyond this distance particles do not interact. */
  const Cutoff: real := 400.0

  predicate InRange(ix: seq<nat>, n: nat) {
    forall k :: 0 <= k < |ix| ==> ix[k] < n
  }

  predicate SpansInRange(spans: seq<Span>, n: nat) {
    forall a :: 0 <= a < |spans| ==> InRange(spans[a].members, n)
  }

  /** `getDistancesBetweenTwoVectors(a, b)`: the distance `d` and the difference `a - b`. */
  function Distances(a: Vec3, b: Vec3, sqrt: real -> real): (real, Vec3)
    requires IsSqrt(sqrt)
  {
    var delta := Sub(a, b);
    (Magnitude(delta, sqrt), delta)
  }

  /** The distance does not depend on the order of the two points, and a point is at distance 0 from itself. */
  lemma DistanceSymmetric(a: Vec3, b: Vec3, sqrt: real -> real)
    requires IsSqrt(sqrt)
    ensures Distances(a, b, sqrt).0 == Distances(b, a, sqrt).0
    ensures Distances(a, b, sqrt).1 == Scaled(Distances(b, a, sqrt).1, -1.0)
    ensures Distances(a, a, sqrt).0 == 0.0
  {
    assert Sub(a, b) == Scaled(Sub(b, a), -1.0);
    ScaledMagnitudeSq(Sub(b, a), -1.0);
    assert Sub(a, a) == Zero;
    MagnitudeOfZero(sqrt);
  }

  /**
   * What particle `q` adds to the force on particle `p` inside `rule`: nothing when the
   * distance `d` is 0 or above the cutoff, otherwise `g / d` times `p - q`.
   */
  function Contribution(p: Vec3, q: Vec3, g: real, sqrt: real -> real): Vec3
    requires IsSqrt(sqrt)
  {
    var (d, delta) := Distances(p, q, sqrt);
    if d != 0.0 && d >= 0.0 && d <= Cutoff then Scaled(delta, g * 1.0 / d) else Zero
  }

  /**
   * Every neighbour within the cutoff pushes with the same strength `|g|`, whatever its
   * distance: `g / d` times a difference of length `d`. A coincident neighbour or one
   * beyond the cutoff pushes not at all.
   */
  lemma ContributionStrength(p: Vec3, q: Vec3, g: real, sqrt: real -> real)
    requires IsSqrt(sqrt)
    ensures var d := Distances(p, q, sqrt).0;
      && (d == 0.0 || Cutoff < d ==> Contribution(p, q, g, sqrt) == Zero)
      && (0.0 < d <= Cutoff ==> MagnitudeSq(Contribution(p, q, g, sqrt)) == g * g)
  {
    var (d, delta) := Distances(p, q, sqrt);
    MagnitudeSquared(delta, sqrt);
    if 0.0 < d <= Cutoff {
      var k := g * 1.0 / d;
      ScaledMagnitudeSq(delta, k);
      assert k * d == g;
      SquareOfProduct(k, d);
    }
  }

  /**
   * The force `(fx, fy, fz)` summed for particle `i` over the members `others` of the other
   * group, in order, skipping `i` itself.
   */
  function Force(ps: seq<PState>, i: nat, others: seq<nat>, g: real, sqrt: real -> real): Vec3
    requires IsSqrt(sqrt) && i < |ps| && InRange(others, |ps|)
    decreases |others|
  {
    if others == [] then Zero
    else
      var j := others[|others| - 1];
      var f := Force(ps, i, others[..|others| - 1], g, sqrt);
      if j == i then f else Add(f, Contribution(ps[i].translate, ps[j].translate, g, sqrt))
  }

  /**
   * The force on `i` depends only on the positions of `i` and of the other members: the
   * particle never acts on itself, so its own entry in `others` does not count.
   */
  lemma {:induction false} ForceFrame(ps: seq<PState>, qs: seq<PState>, i: nat, others: seq<nat>, g: real, sqrt: real -> real)
    requires IsSqrt(sqrt) && i < |ps| && |qs| == |ps| && InRange(others, |ps|)
    requires ps[i].translate == qs[i].translate
    requires forall k :: 0 <= k < |others| && others[k] != i ==> ps[others[k]].translate == qs[others[k]].translate
    ensures Force(ps, i, others, g, sqrt) == Force(qs, i, others, g, sqrt)
    decreases |others|
  {
    if others != [] {
      ForceFrame(ps, qs, i, others[..|others| - 1], g, sqrt);
    }
  }

  /**
   * When every other member coincides with particle `i` or lies beyond the cutoff, the force
   * on `i` is zero.
   */
  lemma {:induction false} ForceOfFarOrCoincident(ps: seq<PState>, i: nat, others: seq<nat>, g: real, sqrt: real -> real)
    requires IsSqrt(sqrt) && i < |ps| && InRange(others, |ps|)
    requires forall k :: 0 <= k < |others| ==>
      (others[k] == i ||
       Distances(ps[i].translate, ps[others[k]].translate, sqrt).0 == 0.0 ||
       Distances(ps[i].translate, ps[others[k]].translate, sqrt).0 > Cutoff)
    ensures Force(ps, i, others, g, sqrt) == Zero
    decreases |others|
  {
    if others != [] {
      var init := others[..|others| - 1];
      ForceOfFarOrCoincident(ps, i, init, g, sqrt);
      var j := others[|others| - 1];
      if j != i {
        var d := Distances(ps[i].translate, ps[j].translate, sqrt).0;
        assert d == 0.0 || d > Cutoff;
        assert Contribution(ps[i].translate, ps[j].translate, g, sqrt) == Zero;
      }
    }
  }

  /**
   * `particle.translate.magnitude() > store.radius`: a particle outside the sphere is pulled
   * towards the origin by the fraction `pushBackForce / 1000`; inside it stays put.
   */
  function Contain(t: Vec3, env: Env, sqrt: real -> real): Vec3
    requires IsSqrt(sqrt)
  {
    if Magnitude(t, sqrt) > env.radius then Lerp(t, Zero, env.pushBackForce / 1000.0) else t
  }

  /**
   * Containment leaves a particle inside the sphere where it is; one outside is scaled
   * towards the origin, and for a pull back between 0 and 1000 its magnitude shrinks by
   * exactly the fraction `pushBackForce / 1000`.
   */
  lemma ContainPullsInward(t: Vec3, env: Env, sqrt: real -> real)
    requires IsSqrt(sqrt)
    ensures Magnitude(t, sqrt) <= env.radius ==> Contain(t, env, sqrt) == t
    ensures env.radius < Magnitude(t, sqrt) && 0.0 <= env.pushBackForce <= 1000.0 ==>
      Contain(t, env, sqrt) == Scaled(t, 1.0 - env.pushBackForce / 1000.0) &&
      Magnitude(Contain(t, env, sqrt), sqrt) == (1.0 - env.pushBackForce / 1000.0) * Magnitude(t, sqrt)
  {
    var alpha := env.pushBackForce / 1000.0;
    if env.radius < Magnitude(t, sqrt) && 0.0 <= alpha <= 1.0 {
      LerpToOrigin(t, alpha, sqrt);
    }
  }

  /** One particle's update in `rule`: halve velocity plus force, move, contain. */
  function Move(p: PState, f: Vec3, env: Env, sqrt: real -> real): PState
    requires IsSqrt(sqrt)
  {
    var v := Scaled(Add(p.velocity, f), 0.5);
    PState(Contain(Add(p.translate, v), env, sqrt), v, p.radius)
  }

  /**
   * `rule(groupA, groupB)` after its first `k` members of group A: each member's force is
   * summed over the positions as they are when its turn comes (earlier members have
   * already moved), then the member is moved. Only A's members change, and no radius does.
   */
  function RuleUpTo(ps: seq<PState>, ia: seq<nat>, ib: seq<nat>, g: real, env: Env, sqrt: real -> real, k: nat): (r: seq<PState>)
    requires IsSqrt(sqrt) && InRange(ia, |ps|) && InRange(ib, |ps|) && k <= |ia|
    ensures |r| == |ps|
    decreases k
  {
    if k == 0 then ps
    else
      var q := RuleUpTo(ps, ia, ib, g, env, sqrt, k - 1);
      var i := ia[k - 1];
      q[i := Move(q[i], Force(q, i, ib, g, sqrt), env, sqrt)]
  }

  /** No radius changes. */
  lemma {:induction false} RuleUpToKeeps(ps: seq<PState>, ia: seq<nat>, ib: seq<nat>, g: real, env: Env, sqrt: real -> real, k: nat)
    requires IsSqrt(sqrt) && InRange(ia, |ps|) && InRange(ib, |ps|) && k <= |ia|
    ensures forall j :: 0 <= j < |ps| ==> RuleUpTo(ps, ia, ib, g, env, sqrt, k)[j].radius == ps[j].radius
    decreases k
  {
    if k > 0 {
      RuleUpToKeeps(ps, ia, ib, g, env, sqrt, k - 1);
    }
  }

  /** A particle that is not among group A's first `k` members has not moved. */
  lemma {:induction false} RuleUpToUntouched(ps: seq<PState>, ia: seq<nat>, ib: seq<nat>, g: real, env: Env, sqrt: real -> real,
                                             k: nat, j: nat)
    requires IsSqrt(sqrt) && InRange(ia, |ps|) && InRange(ib, |ps|) && k <= |ia| && j < |ps|
    requires forall m :: 0 <= m < k ==> ia[m] != j
    ensures RuleUpTo(ps, ia, ib, g, env, sqrt, k)[j] == ps[j]
    decreases k
  {
    if k > 0 {
      RuleUpToUntouched(ps, ia, ib, g, env, sqrt, k - 1, j);
    }
  }

  function RuleSpec(ps: seq<PState>, ia: seq<nat>, ib: seq<nat>, g: real, env: Env, sqrt: real -> real): (r: seq<PState>)
    requires IsSqrt(sqrt) && InRange(ia, |ps|) && InRange(ib, |ps|)
    ensures |r| == |ps|
  {
    RuleUpTo(ps, ia, ib, g, env, sqrt, |ia|)
  }

  /**
   * The two-pass reading of `rule`: every force of group A computed from the positions
   * before the call, then all members moved. A reference definition, not what the code does.
   */
  function RuleTwoPassUpTo(ps: seq<PState>, ia: seq<nat>, ib: seq<nat>, g: real, env: Env, sqrt: real -> real, k: nat): (r: seq<PState>)
    requires IsSqrt(sqrt) && InRange(ia, |ps|) && InRange(ib, |ps|) && k <= |ia|
    ensures |r| == |ps|
    decreases k
  {
    if k == 0 then ps
    else
      var q := RuleTwoPassUpTo(ps, ia, ib, g, env, sqrt, k - 1);
      var i := ia[k - 1];
      q[i := Move(ps[i], Force(ps, i, ib, g, sqrt), env, sqrt)]
  }

  predicate Distinct<T(==)>(s: seq<T>) {
    forall k, l :: 0 <= k < l < |s| ==> s[k] != s[l]
  }

  lemma DistinctSnoc<T>(s: seq<T>, x: T)
    requires Distinct(s) && x !in s
    ensures Distinct(s + [x])
  {
  }

  /**
   * When no particle of group A belongs to group B (and A lists each particle once), the
   * single pass of the code and the two-pass reading agree.
   */
  lemma {:induction false} SinglePassAgreesWhenDisjoint(ps: seq<PState>, ia: seq<nat>, ib: seq<nat>, g: real, env: Env, sqrt: real -> real, k: nat)
    requires IsSqrt(sqrt) && InRange(ia, |ps|) && InRange(ib, |ps|) && k <= |ia|
    requires Distinct(ia)
    requires forall m, n :: 0 <= m < |ia| && 0 <= n < |ib| ==> ia[m] != ib[n]
    ensures RuleUpTo(ps, ia, ib, g, env, sqrt, k) == RuleTwoPassUpTo(ps, ia, ib, g, env, sqrt, k)
    decreases k
  {
    if k > 0 {
      SinglePassAgreesWhenDisjoint(ps, ia, ib, g, env, sqrt, k - 1);
      var q := RuleUpTo(ps, ia, ib, g, env, sqrt, k - 1);
      var i := ia[k - 1];
      RuleUpToUntouched(ps, ia, ib, g, env, sqrt, k - 1, i);
      forall n | 0 <= n < |ib| && ib[n] != i
        ensures q[ib[n]].translate == ps[ib[n]].translate
      {
        RuleUpToUntouched(ps, ia, ib, g, env, sqrt, k - 1, ib[n]);
      }
      ForceFrame(q, ps, i, ib, g, sqrt);
    }
  }

  /** One more partner adds its contribution to the force, unless it is the particle itself. */
  lemma ForceStep(ps: seq<PState>, i: nat, others: seq<nat>, m: nat, g: real, sqrt: real -> real)
    requires IsSqrt(sqrt) && i < |ps| && InRange(others, |ps|) && m < |others|
    ensures Force(ps, i, others[..m + 1], g, sqrt) ==
      if others[m] == i then Force(ps, i, others[..m], g, sqrt)
      else Add(Force(ps, i, others[..m], g, sqrt), Contribution(ps[i].translate, ps[others[m]].translate, g, sqrt))
  {
    assert others[..m + 1][..m] == others[..m];
  }

  /** A neighbour at distance `d` within the cutoff contributes `g / d` times the difference. */
  lemma ContributionWithin(p: Vec3, q: Vec3, g: real, d: real, sqrt: real -> real)
    requires IsSqrt(sqrt) && MagnitudeSq(Sub(p, q)) == d * d && 0.0 < d <= Cutoff
    ensures Contribution(p, q, g, sqrt) == Scaled(Sub(p, q), g * 1.0 / d)
  {
    SqrtOfSquare(sqrt, d);
  }

  /** A neighbour beyond the cutoff contributes nothing. */
  lemma ContributionBeyond(p: Vec3, q: Vec3, g: real, d: real, sqrt: real -> real)
    requires IsSqrt(sqrt) && MagnitudeSq(Sub(p, q)) == d * d && Cutoff < d
    ensures Contribution(p, q, g, sqrt) == Zero
  {
    SqrtOfSquare(sqrt, d);
  }

  /** With one partner `j`, the force on `i` is that partner's contribution, whichever comes first. */
  lemma ForceFromOnePartner(ps: seq<PState>, i: nat, j: nat, g: real, sqrt: real -> real)
    requires IsSqrt(sqrt) && i < |ps| && j < |ps| && i != j
    ensures Force(ps, i, [i, j], g, sqrt) == Contribution(ps[i].translate, ps[j].translate, g, sqrt)
    ensures Force(ps, i, [j, i], g, sqrt) == Contribution(ps[i].translate, ps[j].translate, g, sqrt)
  {
    assert [i, j][..1] == [i] && [j, i][..1] == [j] && [i][..0] == [] && [j][..0] == [];
    var c := Contribution(ps[i].translate, ps[j].translate, g, sqrt);
    assert Force(ps, i, [i], g, sqrt) == Zero;
    assert Add(Zero, c) == c;
  }

  /** Without pull back, containment never moves a particle. */
  lemma MoveWithoutPullBack(p: PState, f: Vec3, env: Env, sqrt: real -> real)
    requires IsSqrt(sqrt) && env.pushBackForce == 0.0
    ensures var v := Scaled(Add(p.velocity, f), 0.5);
      Move(p, f, env, sqrt) == PState(Add(p.translate, v), v, p.radius)
  {
    var t := Add(Add(p.translate, Scaled(Add(p.velocity, f), 0.5)), Zero);
    assert Lerp(t, Zero, 0.0) == t;
  }

  /** The last member moved by the two-pass reading gets the force from the original positions. */
  lemma TwoPassLast(ps: seq<PState>, ia: seq<nat>, ib: seq<nat>, g: real, env: Env, sqrt: real -> real, k: nat)
    requires IsSqrt(sqrt) && InRange(ia, |ps|) && InRange(ib, |ps|) && 0 < k <= |ia|
    ensures RuleTwoPassUpTo(ps, ia, ib, g, env, sqrt, k)[ia[k - 1]] ==
      Move(ps[ia[k - 1]], Force(ps, ia[k - 1], ib, g, sqrt), env, sqrt)
  {
  }

  /** A neighbour at distance `s` behind the unit vector `w` pushes by `w` with gain 100, up to the cutoff. */
  lemma UnitContribution(p: Vec3, q: Vec3, w: Vec3, s: real, sqrt: real -> real)
    requires IsSqrt(sqrt) && MagnitudeSq(w) == 1.0 && 0.0 < s && Sub(p, q) == Scaled(w, s)
    ensures Contribution(p, q, 1.0, sqrt) == if s <= Cutoff then w else Zero
  {
    ScaledMagnitudeSq(w, s);
    if s <= Cutoff {
      ContributionWithin(p, q, 1.0, s, sqrt);
      ScaleLaws(w, s, 1.0 * 1.0 / s);
      assert s * (1.0 * 1.0 / s) == 1.0;
    } else {
      ContributionBeyond(p, q, 1.0, s, sqrt);
    }
  }

  /**
   * Two particles of one group, 400 apart along the unit vector `u`: the first moving
   * away from the second at speed 1, the second moving along `u` at speed 1.
   */
  function Example(u: Vec3, a: Vec3): seq<PState> {
    [PState(a, Scaled(u, -1.0), 4.0), PState(Add(a, Scaled(u, 400.0)), u, 4.0)]
  }

  /** The example after the single pass has moved its first particle. */
  function ExampleAfterFirst(u: Vec3, a: Vec3): seq<PState> {
    [PState(Add(a, Scaled(u, -1.0)), Scaled(u, -1.0), 4.0), Example(u, a)[1]]
  }

  /** With gain 100 the first particle, 400 from the second, is pushed back by `u`. */
  lemma ExampleFirstForce(u: Vec3, a: Vec3, sqrt: real -> real)
    requires IsSqrt(sqrt) && MagnitudeSq(u) == 1.0
    ensures Force(Example(u, a), 0, [0, 1], 1.0, sqrt) == Scaled(u, -1.0)
  {
    var ps := Example(u, a);
    var back := Scaled(u, -1.0);
    assert Sub(a, ps[1].translate) == Scaled(back, 400.0);
    ScaledMagnitudeSq(u, -1.0);
    UnitContribution(a, ps[1].translate, back, 400.0, sqrt);
    ForceFromOnePartner(ps, 0, 1, 1.0, sqrt);
  }

  /** With no pull back, the single pass first moves the first particle back by `u`. */
  lemma ExampleFirstStep(u: Vec3, a: Vec3, env: Env, sqrt: real -> real)
    requires IsSqrt(sqrt) && MagnitudeSq(u) == 1.0 && env.pushBackForce == 0.0
    ensures RuleUpTo(Example(u, a), [0, 1], [0, 1], 1.0, env, sqrt, 1) == ExampleAfterFirst(u, a)
  {
    var ps := Example(u, a);
    var back := Scaled(u, -1.0);
    ExampleFirstForce(u, a, sqrt);
    MoveWithoutPullBack(ps[0], back, env, sqrt);
    assert Scaled(Add(back, back), 0.5) == back;
  }

  /** The second particle then sees the first 401 away, beyond the cutoff: no force. */
  lemma ExampleSecondForce(u: Vec3, a: Vec3, sqrt: real -> real)
    requires IsSqrt(sqrt) && MagnitudeSq(u) == 1.0
    ensures Force(ExampleAfterFirst(u, a), 1, [0, 1], 1.0, sqrt) == Zero
  {
    var q := ExampleAfterFirst(u, a);
    var b := q[1].translate;
    var a1 := q[0].translate;
    var c := Contribution(b, a1, 1.0, sqrt);
    assert c == Zero by {
      assert Sub(b, a1) == Scaled(u, 401.0);
      UnitContribution(b, a1, u, 401.0, sqrt);
    }
    ForceFromOnePartner(q, 1, 0, 1.0, sqrt);
  }

  /** So in the single pass the second particle only coasts, by half its velocity. */
  lemma ExampleSinglePass(u: Vec3, a: Vec3, env: Env, sqrt: real -> real)
    requires IsSqrt(sqrt) && MagnitudeSq(u) == 1.0 && env.pushBackForce == 0.0
    ensures RuleSpec(Example(u, a), [0, 1], [0, 1], 1.0, env, sqrt)[1].translate ==
      Add(Example(u, a)[1].translate, Scaled(u, 0.5))
  {
    ExampleFirstStep(u, a, env, sqrt);
    ExampleSecondForce(u, a, sqrt);
    var q := ExampleAfterFirst(u, a);
    MoveWithoutPullBack(q[1], Zero, env, sqrt);
    AddZero(u);
  }

  /** Reading every force off the old positions, the second particle is pushed by `u` as well. */
  lemma ExampleTwoPass(u: Vec3, a: Vec3, env: Env, sqrt: real -> real)
    requires IsSqrt(sqrt) && MagnitudeSq(u) == 1.0 && env.pushBackForce == 0.0
    ensures RuleTwoPassUpTo(Example(u, a), [0, 1], [0, 1], 1.0, env, sqrt, 2)[1].translate ==
      Add(Example(u, a)[1].translate, u)
  {
    var ps := Example(u, a);
    var b := ps[1].translate;
    assert Sub(b, a) == Scaled(u, 400.0);
    UnitContribution(b, a, u, 400.0, sqrt);
    ForceFromOnePartner(ps, 1, 0, 1.0, sqrt);
    MoveWithoutPullBack(ps[1], u, env, sqrt);
    assert Scaled(Add(u, u), 0.5) == u;
    TwoPassLast(ps, [0, 1], [0, 1], 1.0, env, sqrt, 2);
  }

  /** Half a non-zero step lands elsewhere than the whole step. */
  lemma HalfStepDiffers(b: Vec3, u: Vec3)
    requires MagnitudeSq(u) == 1.0
    ensures Add(b, Scaled(u, 0.5)) != Add(b, u)
  {
  }

  /**
   * Within one group the in-place single pass and a two-pass reading of the rule disagree:
   * the example's second particle ends at different positions.
   */
  lemma SinglePassDiffersWithinAGroup(u: Vec3, a: Vec3, env: Env, sqrt: real -> real)
    requires IsSqrt(sqrt) && MagnitudeSq(u) == 1.0 && env.pushBackForce == 0.0
    ensures RuleSpec(Example(u, a), [0, 1], [0, 1], 1.0, env, sqrt)[1].translate !=
      RuleTwoPassUpTo(Example(u, a), [0, 1], [0, 1], 1.0, env, sqrt, 2)[1].translate
  {
    ExampleSinglePass(u, a, env, sqrt);
    ExampleTwoPass(u, a, env, sqrt);
    HalfStepDiffers(Example(u, a)[1].translate, u);
  }
}
