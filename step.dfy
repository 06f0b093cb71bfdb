/**
 * The physics half of `update` in src/main.ts, on values: `rule(A, B)` for every ordered
 * pair of groups, then, when collision checking is on, the collision sweep; nothing moves
 * while the simulation is paused.
 */
module Stepping {
  import opened Vectors
  import opened Physics
  import opened Collisions
  import opened Gains
  import Store

  /** Every ordered pair of the groups' colours has a gain. */
  predicate HasGains(gMaps: Store.GMaps, spans: seq<Span>) {
    forall a, b :: 0 <= a < |spans| && 0 <= b < |spans| ==>
      spans[a].color in gMaps && spans[b].color in gMaps[spans[a].color]
  }

  /**
   * Once `randomGMaps` has drawn the table, groups whose colours come from `colors` have a
   * gain for every ordered pair, as `update` needs.
   */
  lemma HasGainsAfterDraw(gMaps: Store.GMaps, minG: real, maxG: real, draws: seq<seq<real>>, spans: seq<Span>)
    requires DrawsFit(draws, |Colors|, |Colors|)
    requires forall a :: 0 <= a < |spans| ==> spans[a].color in Colors
    ensures HasGains(RandomTable(gMaps, minG, maxG, draws, Colors, Colors), spans)
  {
    var t := RandomTable(gMaps, minG, maxG, draws, Colors, Colors);
    ColorsExact();
    RandomTableAt(gMaps, minG, maxG, draws, Colors, Colors);
    forall a, b | 0 <= a < |spans| && 0 <= b < |spans|
      ensures spans[a].color in t && spans[b].color in t[spans[a].color]
    {
      var i :| 0 <= i < |Colors| && Colors[i] == spans[a].color;
      RandomRowKeys(minG, maxG, draws[i], Colors);
      assert t[Colors[i]] == RandomRow(minG, maxG, draws[i], Colors);
    }
  }

  /** `gMaps[colorA][colorB] / 100`: the gain `rule` applies. */
  function Gain(gMaps: Store.GMaps, colorA: string, colorB: string): real
    requires colorA in gMaps && colorB in gMaps[colorA]
  {
    gMaps[colorA][colorB] / 100.0
  }

  /**
   * The pairs of groups the nested `for ... of groups` loops have visited once the outer
   * index is `a` and the inner index `b`: every pair of the rows before `a`, then
   * `(a, 0), ..., (a, b - 1)`.
   */
  function GroupPairsUpTo(m: nat, a: nat, b: nat): seq<(nat, nat)>
    decreases a, b
  {
    if b == 0 then
      if a == 0 then [] else GroupPairsUpTo(m, a - 1, m)
    else GroupPairsUpTo(m, a, b - 1) + [(a, b - 1)]
  }

  function GroupPairs(m: nat): seq<(nat, nat)> {
    GroupPairsUpTo(m, m, 0)
  }

  /** The pairs visited so far are exactly the full rows before `a` and the start of row `a`. */
  lemma {:induction false} GroupPairsUpToMembers(m: nat, a: nat, b: nat)
    requires b <= m
    ensures forall p :: p in GroupPairsUpTo(m, a, b) <==> (p.0 < a && p.1 < m) || (p.0 == a && p.1 < b)
    decreases a, b
  {
    if b == 0 {
      if a > 0 {
        GroupPairsUpToMembers(m, a - 1, m);
      }
    } else {
      GroupPairsUpToMembers(m, a, b - 1);
    }
  }

  /** The pairs are visited in increasing lexicographic order, so none twice. */
  lemma {:induction false} GroupPairsUpToIncreasing(m: nat, a: nat, b: nat)
    requires b <= m
    ensures StrictlyIncreasing(GroupPairsUpTo(m, a, b))
    decreases a, b
  {
    if b == 0 {
      if a > 0 {
        GroupPairsUpToIncreasing(m, a - 1, m);
      }
    } else {
      GroupPairsUpToIncreasing(m, a, b - 1);
      GroupPairsUpToMembers(m, a, b - 1);
      var prefix := GroupPairsUpTo(m, a, b - 1);
      var s := prefix + [(a, b - 1)];
      forall k, l | 0 <= k < l < |s|
        ensures LexLess(s[k], s[l])
      {
        assert s[k] in prefix;
        if l < |prefix| {
          assert s[l] in prefix;
        }
      }
    }
  }

  lemma {:induction false} GroupPairsUpToLength(m: nat, a: nat, b: nat)
    requires b <= m
    ensures |GroupPairsUpTo(m, a, b)| == a * m + b
    decreases a, b
  {
    if b == 0 {
      if a > 0 {
        GroupPairsUpToLength(m, a - 1, m);
        assert (a - 1) * m + m == a * m;
      }
    } else {
      GroupPairsUpToLength(m, a, b - 1);
    }
  }

  /** `rule` runs once for every ordered pair of groups, the acting group in the outer loop. */
  lemma GroupPairsExact(m: nat)
    ensures forall p :: p in GroupPairs(m) <==> p.0 < m && p.1 < m
    ensures StrictlyIncreasing(GroupPairs(m))
    ensures |GroupPairs(m)| == m * m
  {
    GroupPairsUpToMembers(m, m, 0);
    GroupPairsUpToIncreasing(m, m, 0);
    GroupPairsUpToLength(m, m, 0);
  }

  /** `rule(groups[a], groups[b])` on the list of states; a pair outside the groups changes nothing. */
  function RuleAt(q: seq<PState>, spans: seq<Span>, gMaps: Store.GMaps, env: Env, sqrt: real -> real,
                  a: nat, b: nat): (r: seq<PState>)
    requires IsSqrt(sqrt) && SpansInRange(spans, |q|) && HasGains(gMaps, spans)
    ensures |r| == |q|
    ensures forall k :: 0 <= k < |q| ==> r[k].radius == q[k].radius
  {
    if a < |spans| && b < |spans| then
      RuleUpToKeeps(q, spans[a].members, spans[b].members, Gain(gMaps, spans[a].color, spans[b].color), env, sqrt,
                    |spans[a].members|);
      RuleSpec(q, spans[a].members, spans[b].members, Gain(gMaps, spans[a].color, spans[b].color), env, sqrt)
    else q
  }

  /**
   * `rule(groups[a], groups[b])` for each pair in turn, each on the states the previous ones
   * left. A pair outside the groups is skipped; the loops' own pairs never are.
   */
  function RulesFold(ps: seq<PState>, spans: seq<Span>, gMaps: Store.GMaps, env: Env, sqrt: real -> real,
                     pairs: seq<(nat, nat)>): (r: seq<PState>)
    requires IsSqrt(sqrt) && SpansInRange(spans, |ps|) && HasGains(gMaps, spans)
    ensures |r| == |ps|
    ensures forall k :: 0 <= k < |ps| ==> r[k].radius == ps[k].radius
    decreases |pairs|
  {
    if pairs == [] then ps
    else
      var q := RulesFold(ps, spans, gMaps, env, sqrt, pairs[..|pairs| - 1]);
      RuleAt(q, spans, gMaps, env, sqrt, pairs[|pairs| - 1].0, pairs[|pairs| - 1].1)
  }

  /** One more pair at the end: `rule` on the states the earlier pairs left. */
  lemma RulesFoldStep(ps: seq<PState>, spans: seq<Span>, gMaps: Store.GMaps, env: Env, sqrt: real -> real,
                      pairs: seq<(nat, nat)>, a: nat, b: nat)
    requires IsSqrt(sqrt) && SpansInRange(spans, |ps|) && HasGains(gMaps, spans)
    ensures RulesFold(ps, spans, gMaps, env, sqrt, pairs + [(a, b)]) ==
      RuleAt(RulesFold(ps, spans, gMaps, env, sqrt, pairs), spans, gMaps, env, sqrt, a, b)
  {
    assert (pairs + [(a, b)])[..|pairs|] == pairs;
  }

  /** The loops' next pair in row `a`: `rule(groups[a], groups[b])` on the states the earlier pairs left. */
  lemma RulesFoldNext(ps: seq<PState>, spans: seq<Span>, gMaps: Store.GMaps, env: Env,
                      sqrt: real -> real, a: nat, b: nat)
    requires IsSqrt(sqrt) && SpansInRange(spans, |ps|) && HasGains(gMaps, spans)
    ensures RulesFold(ps, spans, gMaps, env, sqrt, GroupPairsUpTo(|spans|, a, b + 1)) ==
      RuleAt(RulesFold(ps, spans, gMaps, env, sqrt, GroupPairsUpTo(|spans|, a, b)), spans, gMaps, env, sqrt, a, b)
  {
    var pairs := GroupPairsUpTo(|spans|, a, b);
    assert GroupPairsUpTo(|spans|, a, b + 1) == pairs + [(a, b)];
    RulesFoldStep(ps, spans, gMaps, env, sqrt, pairs, a, b);
  }

  /**
   * The physics of one `update`: when not paused, every group pair's `rule`, then the
   * collision sweep if collision checking is on.
   */
  function Step(ps: seq<PState>, spans: seq<Span>, gMaps: Store.GMaps, env: Env, sqrt: real -> real,
                isPaused: bool, isCheckCollision: bool): seq<PState>
    requires IsSqrt(sqrt) && SpansInRange(spans, |ps|) && HasGains(gMaps, spans)
  {
    if isPaused then ps
    else
      var r := RulesFold(ps, spans, gMaps, env, sqrt, GroupPairs(|spans|));
      if isCheckCollision then CollideFold(r, CollisionPairs(|r|), sqrt) else r
  }

  /**
   * One step keeps the number of particles and every radius, and the collision sweep does
   * not move the centroid the rules left; when paused nothing changes at all.
   */
  lemma StepSpec(ps: seq<PState>, spans: seq<Span>, gMaps: Store.GMaps, env: Env, sqrt: real -> real,
                 isPaused: bool, isCheckCollision: bool)
    requires IsSqrt(sqrt) && SpansInRange(spans, |ps|) && HasGains(gMaps, spans)
    ensures var r := Step(ps, spans, gMaps, env, sqrt, isPaused, isCheckCollision);
      && |r| == |ps|
      && (forall k :: 0 <= k < |ps| ==> r[k].radius == ps[k].radius)
      && (isPaused ==> r == ps)
      && (!isPaused ==>
            SumOfTranslates(r) == SumOfTranslates(RulesFold(ps, spans, gMaps, env, sqrt, GroupPairs(|spans|))))
  {
    if !isPaused {
      var r := RulesFold(ps, spans, gMaps, env, sqrt, GroupPairs(|spans|));
      if isCheckCollision {
        CollisionPairsInRange(|r|);
        CollideFirstKeepsMotion(r, CollisionPairs(|r|), |CollisionPairs(|r|)|, sqrt);
        CollideFirstKeepsSum(r, CollisionPairs(|r|), |CollisionPairs(|r|)|, sqrt);
      }
    }
  }
}
