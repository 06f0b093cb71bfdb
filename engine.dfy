/**
 * The engine state of src/main.ts: the `Particle` objects, the flat `particles` list, the
 * `groups` list and the gain table `gMaps`, with the operations that change them in place.
 * Each operation is proved against the value-level definitions of the Physics, Collisions,
 * Stepping and Gains modules.
 */
module Engine {
  import opened Wrappers
  import opened Vectors
  import opened Utils
  import opened Physics
  import opened Collisions
  import opened Stepping
  import opened Gains
  import opened Snapshots
  import Store

  /** `Particle`: a zdog shape with a position, a velocity and a radius of half its stroke. */
  class Particle {
    var translate: Vec3
    var velocity: Vec3
    const radius: real

    /** `new Particle({ stroke, translate })`: at rest, with radius `stroke / 2`. */
    constructor (stroke: real, translate: Vec3)
      ensures this.translate == translate && velocity == Zero && radius == stroke / 2.0
    {
      this.translate := translate;
      velocity := Zero;
      radius := stroke / 2.0;
    }

    function State(): PState
      reads this
    {
      PState(translate, velocity, radius)
    }
  }

  /** `Group`: a colour and the list of its particles. */
  datatype Group = Group(color: string, particles: seq<Particle>)

  /** The states of a list of particles, in order. */
  function StatesOf(ps: seq<Particle>): (r: seq<PState>)
    reads ps
    ensures |r| == |ps|
    decreases |ps|
  {
    if ps == [] then [] else StatesOf(ps[..|ps| - 1]) + [ps[|ps| - 1].State()]
  }

  /** Position `k` of the states is the state of particle `k`. */
  lemma {:induction false} StatesOfAt(ps: seq<Particle>)
    ensures forall k :: 0 <= k < |ps| ==> StatesOf(ps)[k] == ps[k].State()
    decreases |ps|
  {
    if ps != [] {
      StatesOfAt(ps[..|ps| - 1]);
    }
  }

  lemma StatesOfSnoc(ps: seq<Particle>, p: Particle)
    ensures StatesOf(ps + [p]) == StatesOf(ps) + [p.State()]
  {
    assert (ps + [p])[..|ps|] == ps;
  }

  /** The states of two lists one after the other are the two lists of states one after the other. */
  lemma {:induction false} StatesOfConcat(xs: seq<Particle>, ys: seq<Particle>)
    ensures StatesOf(xs + ys) == StatesOf(xs) + StatesOf(ys)
    decreases |ys|
  {
    if ys == [] {
      assert xs + ys == xs;
    } else {
      var n := |ys| - 1;
      assert xs + ys == (xs + ys[..n]) + [ys[n]];
      StatesOfSnoc(xs + ys[..n], ys[n]);
      StatesOfSnoc(ys[..n], ys[n]);
      assert ys == ys[..n] + [ys[n]];
      StatesOfConcat(xs, ys[..n]);
    }
  }

  /** The groups' particle lists, one after the other. */
  function Flatten(gs: seq<Group>): seq<Particle>
    decreases |gs|
  {
    if gs == [] then [] else Flatten(gs[..|gs| - 1]) + gs[|gs| - 1].particles
  }

  lemma FlattenSnoc(gs: seq<Group>, g: Group)
    ensures Flatten(gs + [g]) == Flatten(gs) + g.particles
  {
    assert (gs + [g])[..|gs|] == gs;
  }

  lemma {:induction false} FlattenConcat(xs: seq<Group>, ys: seq<Group>)
    ensures Flatten(xs + ys) == Flatten(xs) + Flatten(ys)
    decreases |ys|
  {
    if ys == [] {
      assert xs + ys == xs;
    } else {
      var n := |ys| - 1;
      assert (xs + ys)[..|xs + ys| - 1] == xs + ys[..n];
      FlattenConcat(xs, ys[..n]);
    }
  }

  /** `lo, lo + 1, ..., hi - 1`. */
  function Range(lo: nat, hi: nat): (r: seq<nat>)
    ensures |r| == if lo <= hi then hi - lo else 0
  {
    if hi <= lo then [] else seq(hi - lo, k requires 0 <= k < hi - lo => lo + k)
  }

  /** Where group `a`'s particles start in the flat list. */
  function Offset(gs: seq<Group>, a: nat): nat
    requires a <= |gs|
  {
    |Flatten(gs[..a])|
  }

  /** The groups as the physics sees them: each colour with its members' positions in the flat list. */
  function SpansOf(gs: seq<Group>): seq<Span> {
    seq(|gs|, a requires 0 <= a < |gs| => Span(gs[a].color, Range(Offset(gs, a), Offset(gs, a) + |gs[a].particles|)))
  }

  /** Group `a`'s span has its colour and as many members as it has particles. */
  lemma SpanShape(gs: seq<Group>, a: nat)
    requires a < |gs|
    ensures SpansOf(gs)[a].color == gs[a].color
    ensures |SpansOf(gs)[a].members| == |gs[a].particles|
    ensures SpansOf(gs)[a].members == Range(Offset(gs, a), Offset(gs, a) + |gs[a].particles|)
  {
    assert SpansOf(gs)[a] == Span(gs[a].color, Range(Offset(gs, a), Offset(gs, a) + |gs[a].particles|));
  }

  lemma SplitAt<T>(s: seq<T>, a: nat)
    requires a < |s|
    ensures s == (s[..a] + [s[a]]) + s[a + 1..]
  {
  }

  /** The flat list around group `a`: the groups before it, its particles, the groups after it. */
  lemma FlattenSplit(gs: seq<Group>, a: nat)
    requires a < |gs|
    ensures Flatten(gs) == Flatten(gs[..a]) + gs[a].particles + Flatten(gs[a + 1..])
  {
    var before, after := gs[..a], gs[a + 1..];
    SplitAt(gs, a);
    FlattenSnoc(before, gs[a]);
    FlattenConcat(before + [gs[a]], after);
  }

  /** Member `m` of group `a` sits at position `Offset(gs, a) + m` of the flat list. */
  lemma SpanMember(gs: seq<Group>, a: nat, m: nat)
    requires a < |gs| && m < |gs[a].particles|
    ensures SpansOf(gs)[a].members[m] == Offset(gs, a) + m
    ensures Offset(gs, a) + m < |Flatten(gs)|
    ensures Flatten(gs)[Offset(gs, a) + m] == gs[a].particles[m]
  {
    SpanShape(gs, a);
    FlattenSplit(gs, a);
  }

  /** Group `a`'s particles end within the flat list. */
  lemma SpanBound(gs: seq<Group>, a: nat)
    requires a < |gs|
    ensures Offset(gs, a) + |gs[a].particles| <= |Flatten(gs)|
  {
    FlattenSplit(gs, a);
  }

  lemma SpansOfInRange(gs: seq<Group>)
    ensures SpansInRange(SpansOf(gs), |Flatten(gs)|)
  {
    forall a | 0 <= a < |gs|
      ensures InRange(SpansOf(gs)[a].members, |Flatten(gs)|)
    {
      SpanShape(gs, a);
      SpanBound(gs, a);
    }
  }

  /** The states of the particles that `addGroup` creates from the sampled positions. */
  function Arrivals(samples: seq<Vec3>): (r: seq<PState>)
    ensures |r| == |samples|
  {
    seq(|samples|, k requires 0 <= k < |samples| => PState(Rounded(samples[k]), Zero, 4.0))
  }

  lemma ArrivalsSnoc(samples: seq<Vec3>, i: nat)
    requires i < |samples|
    ensures Arrivals(samples[..i + 1]) == Arrivals(samples[..i]) + [PState(Rounded(samples[i]), Zero, 4.0)]
  {
  }

  lemma ArrivalsAtRest(samples: seq<Vec3>)
    ensures forall k :: 0 <= k < |samples| ==>
      Arrivals(samples)[k].velocity == Zero && Arrivals(samples)[k].radius == 4.0 &&
      IsWhole(Arrivals(samples)[k].translate)
  {
    forall k | 0 <= k < |samples|
      ensures IsWhole(Rounded(samples[k]))
    {
      RoundedIsWhole(samples[k]);
    }
  }

  /** `particles` is the concatenation of the groups' lists and holds each particle once. */
  ghost predicate Consistent(particles: seq<Particle>, groups: seq<Group>) {
    && particles == Flatten(groups)
    && Distinct(particles)
    && SpansInRange(SpansOf(groups), |particles|)
  }

  /**
   * Appending a group of particles that are new to the list keeps the list the
   * concatenation of the groups, each particle once.
   */
  lemma AppendGroup(particles: seq<Particle>, groups: seq<Group>, group: Group)
    requires Consistent(particles, groups) && Distinct(group.particles)
    requires forall k :: 0 <= k < |group.particles| ==> group.particles[k] !in particles
    ensures Consistent(particles + group.particles, groups + [group])
  {
    var ps := particles + group.particles;
    var gs := groups + [group];
    assert Distinct(ps) by {
      forall k, l | 0 <= k < l < |ps|
        ensures ps[k] != ps[l]
      {
        if l >= |particles| && k < |particles| {
          assert ps[l] == group.particles[l - |particles|] && ps[k] in particles;
        }
      }
    }
    assert gs[..|gs| - 1] == groups;
    assert Flatten(gs) == Flatten(groups) + group.particles;
    SpansOfInRange(gs);
  }

  /**
   * `store.makeSnapshot(store, gMaps, groups)`, which src/store/store.ts does not define: it
   * sees the settings, the collision switch, the gain table and the groups as values (each
   * group's colour and positions in the flat list, and the particles' states).
   */
  type SnapshotMaker = (Store.StorableStates, bool, Store.GMaps, seq<Span>, seq<PState>) -> Store.Snapshot

  /** The module-level state of src/main.ts. */
  class World {
    var particles: seq<Particle>
    var groups: seq<Group>
    var gMaps: Store.GMaps

    /** `particles` is the concatenation of the groups' lists and holds each particle once. */
    ghost predicate Valid()
      reads this
    {
      Consistent(particles, groups)
    }

    function States(): seq<PState>
      reads this, particles
    {
      StatesOf(particles)
    }

    function Spans(): seq<Span>
      reads this
    {
      SpansOf(groups)
    }

    constructor ()
      ensures particles == [] && groups == [] && gMaps == map[]
      ensures Valid()
    {
      particles := [];
      groups := [];
      gMaps := map[];
    }

    /**
     * `addGroup(number, color)`: `number` new particles of stroke 8 at the rounded sampled
     * positions, appended to `particles` and, as one new group, to `groups`.
     */
    method AddGroup(number: nat, color: string, samples: seq<Vec3>)
      requires Valid() && |samples| == number
      modifies this`particles, this`groups
      ensures Valid()
      ensures |particles| == old(|particles|) + number
      ensures particles[..old(|particles|)] == old(particles)
      ensures forall k :: old(|particles|) <= k < |particles| ==> fresh(particles[k])
      ensures groups == old(groups) + [Group(color, particles[old(|particles|)..])]
      ensures States() == old(States()) + Arrivals(samples)
    {
      ghost var ps0 := particles;
      var group := NewGroup(color, samples);
      StatesOfConcat(ps0, group.particles);
      ghost var after := StatesOf(ps0 + group.particles);
      assert after == old(States()) + Arrivals(samples);
      groups := groups + [group];
      particles := particles + group.particles;
      assert StatesOf(ps0 + group.particles) == after;
      assert Distinct(particles) by {
        forall k, l | 0 <= k < l < |particles|
          ensures particles[k] != particles[l]
        {
          if l >= |ps0| && k < |ps0| {
            assert fresh(particles[l]) && !fresh(particles[k]);
          }
        }
      }
      assert groups[..|groups| - 1] == old(groups);
      assert Flatten(groups) == Flatten(old(groups)) + group.particles;
      SpansOfInRange(groups);
      assert particles[old(|particles|)..] == group.particles;
    }

    /**
     * The physics of `update`: unless paused, every group pair's `rule`, then the collision
     * sweep when collision checking is on.
     */
    method Update(store: Store.Store, sqrt: real -> real)
      requires Valid() && IsSqrt(sqrt) && HasGains(gMaps, Spans())
      modifies particles
      ensures States() == Step(old(States()), Spans(), gMaps, Env(store.states.radius, store.states.pushBackForce),
        sqrt, store.states.isPaused, store.isCheckCollision)
    {
      if !store.states.isPaused {
        ApplyRules(particles, groups, gMaps, store, sqrt);
        if store.isCheckCollision {
          UnaliasedIsDistinct(particles);
          CollideAll(particles, sqrt);
        }
      }
    }

    /**
     * `randomGMaps()`: a fresh random gain for every ordered pair of colours, every particle
     * settled on whole coordinates at rest, then `captureSnapshot()`.
     */
    method RandomGMaps(store: Store.Store, draws: seq<seq<real>>, make: SnapshotMaker)
      requires Distinct(particles) && DrawsFit(draws, |Colors|, |Colors|)
      modifies this`gMaps, particles, store`pushed
      ensures gMaps == RandomTable(old(gMaps), store.states.minG, store.states.maxG, draws, Colors, Colors)
      ensures States() == Settled(old(States()))
      ensures store.pushed == old(store.pushed) +
        if store.states.isPaused then [] else [make(store.states, store.isCheckCollision, gMaps, Spans(), States())]
    {
      ghost var table := RandomTable(gMaps, store.states.minG, store.states.maxG, draws, Colors, Colors);
      ghost var before := StatesOf(particles);
      gMaps := DrawGains(gMaps, store.states.minG, store.states.maxG, draws);
      SettleAll(particles);
      ghost var after := StatesOf(particles);
      CaptureSnapshot(store, make);
      assert gMaps == table && StatesOf(particles) == after;
    }

    /** `captureSnapshot()`: nothing while paused, otherwise the store is handed a new snapshot. */
    method CaptureSnapshot(store: Store.Store, make: SnapshotMaker)
      modifies store`pushed
      ensures store.pushed == old(store.pushed) +
        if store.states.isPaused then [] else [make(store.states, store.isCheckCollision, gMaps, Spans(), States())]
    {
      if store.states.isPaused {
        return;
      }
      var snapshot := make(store.states, store.isCheckCollision, gMaps, Spans(), States());
      store.PushSnapshot(snapshot);
    }

    /**
     * `applySnapshot(snapshot)`: the snapshot's settings go to the store, then the deferred
     * callback `RestoreSnapshot` runs.
     */
    method ApplySnapshot(store: Store.Store, snapshot: Store.Snapshot) returns (completed: bool)
      modifies this, store`states, store`isCheckCollision
      ensures store.states == old(store.states).(radius := snapshot.radius, pushBackForce := snapshot.pushBackForce)
      ensures store.isCheckCollision == snapshot.isCheckCollision
      ensures (gMaps, completed) == CopyGains(old(gMaps), snapshot.gMaps, Colors)
      ensures completed <==> forall c :: c in Colors ==> c in old(gMaps) && c in snapshot.gMaps
      ensures !completed ==> particles == old(particles) && groups == old(groups)
      ensures completed ==> Valid() && States() == Restored(snapshot.groups)
      ensures completed ==> |groups| == |snapshot.groups|
      ensures completed ==> forall a :: 0 <= a < |groups| ==>
        groups[a].color == snapshot.groups[a].color && |groups[a].particles| == |snapshot.groups[a].particles|
      ensures completed ==> forall k :: 0 <= k < |particles| ==> fresh(particles[k])
    {
      store.SetRadius(snapshot.radius);
      store.SetPushBackForce(snapshot.pushBackForce);
      store.SetIsCheckCollision(snapshot.isCheckCollision);
      completed := RestoreSnapshot(snapshot);
    }

    /**
     * The callback `applySnapshot` defers: the gain table is copied pair by pair and, unless
     * a missing row stopped the copy, `particles` and `groups` are replaced by the
     * snapshot's groups rebuilt in order.
     */
    method RestoreSnapshot(snapshot: Store.Snapshot) returns (completed: bool)
      modifies this
      ensures (gMaps, completed) == CopyGains(old(gMaps), snapshot.gMaps, Colors)
      ensures completed <==> forall c :: c in Colors ==> c in old(gMaps) && c in snapshot.gMaps
      ensures !completed ==> particles == old(particles) && groups == old(groups)
      ensures completed ==> Valid() && States() == Restored(snapshot.groups)
      ensures completed ==> |groups| == |snapshot.groups|
      ensures completed ==> forall a :: 0 <= a < |groups| ==>
        groups[a].color == snapshot.groups[a].color && |groups[a].particles| == |snapshot.groups[a].particles|
      ensures completed ==> forall k :: 0 <= k < |particles| ==> fresh(particles[k])
    {
      CopyGainsCompletes(gMaps, snapshot.gMaps, Colors);
      var t;
      t, completed := CopyGainTable(gMaps, snapshot.gMaps);
      gMaps := t;
      if completed {
        var ps, gs := Rebuild(snapshot.groups);
        particles, groups := ps, gs;
      }
    }
  }

  /** The two nested loops of `randomGMaps` over the gain table. */
  method DrawGains(gMaps: Store.GMaps, minG: real, maxG: real, draws: seq<seq<real>>) returns (t: Store.GMaps)
    requires DrawsFit(draws, |Colors|, |Colors|)
    ensures t == RandomTable(gMaps, minG, maxG, draws, Colors, Colors)
  {
    t := gMaps;
    DrawsFitPrefix(draws, |Colors|, |Colors|, 0);
    for a := 0 to |Colors|
      invariant DrawsFit(draws[..a], a, |Colors|)
      invariant t == RandomTable(gMaps, minG, maxG, draws[..a], Colors[..a], Colors)
    {
      t := DrawRow(t, Colors[a], minG, maxG, draws[a]);
      RandomTableSnoc(gMaps, minG, maxG, draws, Colors, Colors, a);
    }
    assert draws[..|Colors|] == draws && Colors[..|Colors|] == Colors;
  }

  /** `gMaps[colorA] = {}`, then one `randomInt(minG, maxG)` per colour written into that row. */
  method DrawRow(gMaps: Store.GMaps, colorA: string, minG: real, maxG: real, draws: seq<real>) returns (t: Store.GMaps)
    requires |draws| == |Colors| && forall k :: 0 <= k < |draws| ==> 0.0 <= draws[k] < 1.0
    ensures t == gMaps[colorA := RandomRow(minG, maxG, draws, Colors)]
  {
    t := gMaps[colorA := map[]];
    for b := 0 to |Colors|
      invariant t == gMaps[colorA := RandomRow(minG, maxG, draws[..b], Colors[..b])]
    {
      RandomRowSnoc(minG, maxG, draws, Colors, b);
      t := t[colorA := t[colorA][Colors[b] := RandomInt(minG, maxG, draws[b])]];
    }
    assert draws[..|Colors|] == draws && Colors[..|Colors|] == Colors;
  }

  /** `randomGMaps`'s loop over the particles: `translate.round()` and `velocity.scale(0)`. */
  method SettleAll(particles: seq<Particle>)
    requires Distinct(particles)
    modifies particles
    ensures StatesOf(particles) == Settled(old(StatesOf(particles)))
  {
    ghost var before := StatesOf(particles);
    StatesOfAt(particles);
    for i := 0 to |particles|
      invariant forall k :: 0 <= k < i ==> particles[k].State() == Settle(before[k])
      invariant forall k :: i <= k < |particles| ==> particles[k].State() == before[k]
    {
      var particle := particles[i];
      particle.translate := Rounded(particle.translate);
      particle.velocity := Scaled(particle.velocity, 0.0);
    }
    StatesOfAt(particles);
  }

  /**
   * `applySnapshot`'s copy of the gain table, colour pair by colour pair. A row missing from
   * either table raises a `TypeError`, which ends the copy (and the rest of the callback).
   */
  method CopyGainTable(gMaps: Store.GMaps, snapshot: Store.GMaps) returns (t: Store.GMaps, completed: bool)
    ensures (t, completed) == CopyGains(gMaps, snapshot, Colors)
  {
    t := gMaps;
    var a := 0;
    while a < |Colors|
      invariant 0 <= a <= |Colors|
      invariant (t, true) == CopyGains(gMaps, snapshot, Colors[..a])
    {
      var colorA := Colors[a];
      if colorA !in t || colorA !in snapshot {
        CopyGainsStops(gMaps, snapshot, Colors, a, |Colors|);
        assert Colors[..|Colors|] == Colors;
        return t, false;
      }
      t := CopyRowInto(t, colorA, snapshot[colorA]);
      assert Colors[..a + 1][..a] == Colors[..a];
      a := a + 1;
    }
    assert Colors[..|Colors|] == Colors;
    completed := true;
  }

  /** `applySnapshot`'s inner loop: `gMaps[colorA][colorB] = snapshotRow[colorB]` for every colour. */
  method CopyRowInto(gMaps: Store.GMaps, colorA: string, snapshotRow: map<string, real>) returns (t: Store.GMaps)
    requires colorA in gMaps
    ensures t == gMaps[colorA := CopyRow(gMaps[colorA], snapshotRow, Colors)]
  {
    t := gMaps;
    for b := 0 to |Colors|
      invariant t == gMaps[colorA := CopyRow(gMaps[colorA], snapshotRow, Colors[..b])]
    {
      var colorB := Colors[b];
      assert Colors[..b + 1][..b] == Colors[..b];
      if colorB in snapshotRow {
        t := t[colorA := t[colorA][colorB := snapshotRow[colorB]]];
      } else {
        t := t[colorA := t[colorA] - {colorB}];
      }
    }
    assert Colors[..|Colors|] == Colors;
  }

  /**
   * One group of `applySnapshot`: per particle snapshot a new particle of stroke
   * `radius * 2` at a copy of its position, its velocity added when the snapshot has one.
   */
  method RestoreGroupOf(snapshot: Store.GroupSnapshot, ghost existing: seq<Particle>) returns (group: Group)
    ensures group.color == snapshot.color && |group.particles| == |snapshot.particles|
    ensures Distinct(group.particles)
    ensures forall k :: 0 <= k < |group.particles| ==> group.particles[k] !in existing
    ensures forall k :: 0 <= k < |group.particles| ==> fresh(group.particles[k])
    ensures StatesOf(group.particles) == RestoreGroup(snapshot.particles)
  {
    var members: seq<Particle> := [];
    for i := 0 to |snapshot.particles|
      invariant |members| == i
      invariant Distinct(members)
      invariant forall k :: 0 <= k < i ==> members[k] !in existing
      invariant forall k :: 0 <= k < i ==> fresh(members[k])
      invariant StatesOf(members) == RestoreGroup(snapshot.particles[..i])
    {
      var particle := RestoreParticle(snapshot.particles[i]);
      DistinctSnoc(members, particle);
      StatesOfSnoc(members, particle);
      RestoreGroupSnoc(snapshot.particles, i);
      members := members + [particle];
    }
    assert snapshot.particles[..|snapshot.particles|] == snapshot.particles;
    group := Group(snapshot.color, members);
  }

  /**
   * `new Particle({ stroke: radius * 2, translate: { ...translate } })`, then
   * `velocity.add2(velocity)` when the snapshot has a velocity.
   */
  method RestoreParticle(particleSnapshot: Store.ParticleSnapshot) returns (particle: Particle)
    ensures fresh(particle)
    ensures particle.State() == Restore(particleSnapshot)
  {
    particle := new Particle(particleSnapshot.radius * 2.0, particleSnapshot.translate);
    if particleSnapshot.velocity.Some? {
      particle.velocity := AddPartial(particle.velocity, particleSnapshot.velocity.value);
    }
  }

  /** `particles` and `groups` hold the first `a` groups of a snapshot, rebuilt in order. */
  ghost predicate RebuiltUpTo(particles: seq<Particle>, groups: seq<Group>, snapshots: seq<Store.GroupSnapshot>, a: nat)
    reads particles
  {
    && a <= |snapshots|
    && Consistent(particles, groups)
    && |groups| == a
    && (forall c :: 0 <= c < a ==>
          groups[c].color == snapshots[c].color && |groups[c].particles| == |snapshots[c].particles|)
    && StatesOf(particles) == Restored(snapshots[..a])
  }

  /**
   * `applySnapshot`'s loop over the snapshot's groups, starting from empty lists: each group
   * rebuilt in turn and appended, its particles to `particles` and itself to `groups`.
   */
  method Rebuild(snapshots: seq<Store.GroupSnapshot>) returns (particles: seq<Particle>, groups: seq<Group>)
    ensures Consistent(particles, groups)
    ensures |groups| == |snapshots|
    ensures forall a :: 0 <= a < |groups| ==>
      groups[a].color == snapshots[a].color && |groups[a].particles| == |snapshots[a].particles|
    ensures StatesOf(particles) == Restored(snapshots)
    ensures forall k :: 0 <= k < |particles| ==> fresh(particles[k])
  {
    particles, groups := [], [];
    for a := 0 to |snapshots|
      invariant RebuiltUpTo(particles, groups, snapshots, a)
      invariant forall k :: 0 <= k < |particles| ==> fresh(particles[k])
    {
      particles, groups := RebuildNext(particles, groups, snapshots, a);
    }
    assert snapshots[..|snapshots|] == snapshots;
  }

  /** One turn of `Rebuild`: group `a` of the snapshot rebuilt and appended. */
  method RebuildNext(particles: seq<Particle>, groups: seq<Group>, snapshots: seq<Store.GroupSnapshot>, a: nat)
    returns (particles': seq<Particle>, groups': seq<Group>)
    requires a < |snapshots| && RebuiltUpTo(particles, groups, snapshots, a)
    ensures RebuiltUpTo(particles', groups', snapshots, a + 1)
    ensures forall k :: 0 <= k < |particles'| ==> (k < |particles| && particles'[k] == particles[k]) || fresh(particles'[k])
  {
    var group := RestoreGroupOf(snapshots[a], particles);
    StatesOfConcat(particles, group.particles);
    AppendGroup(particles, groups, group);
    RestoredSnoc(snapshots, a);
    groups' := groups + [group];
    particles' := particles + group.particles;
  }

  /**
   * `addGroup`'s loop: a new particle of stroke 8 per sample, pushed onto the new group
   * (`addGroup` pushes each onto `particles` too, which `World.AddGroup` does after the loop).
   */
  method NewGroup(color: string, samples: seq<Vec3>) returns (group: Group)
    ensures group.color == color && |group.particles| == |samples|
    ensures Distinct(group.particles)
    ensures forall k :: 0 <= k < |samples| ==> fresh(group.particles[k])
    ensures StatesOf(group.particles) == Arrivals(samples)
  {
    var members: seq<Particle> := [];
    for i := 0 to |samples|
      invariant |members| == i
      invariant Distinct(members)
      invariant forall k :: 0 <= k < i ==> fresh(members[k])
      invariant StatesOf(members) == Arrivals(samples[..i])
    {
      var particle := new Particle(8.0, Rounded(samples[i]));
      DistinctSnoc(members, particle);
      StatesOfSnoc(members, particle);
      ArrivalsSnoc(samples, i);
      members := members + [particle];
    }
    assert samples[..|samples|] == samples;
    group := Group(color, members);
  }

  /** The `m`-th particle of group `b` sits at the `m`-th index of its span in `particles`. */
  lemma GroupMembers(particles: seq<Particle>, groups: seq<Group>, b: nat)
    requires particles == Flatten(groups) && b < |groups|
    ensures SpansOf(groups)[b].color == groups[b].color
    ensures |SpansOf(groups)[b].members| == |groups[b].particles|
    ensures forall m :: 0 <= m < |groups[b].particles| ==>
      SpansOf(groups)[b].members[m] < |particles| && particles[SpansOf(groups)[b].members[m]] == groups[b].particles[m]
  {
    SpanShape(groups, b);
    forall m | 0 <= m < |groups[b].particles|
      ensures SpansOf(groups)[b].members[m] < |particles| && particles[SpansOf(groups)[b].members[m]] == groups[b].particles[m]
    {
      SpanMember(groups, b, m);
    }
  }

  /**
   * `rule(groups[a], groups[b])`: each particle of group `a` in turn sums the pushes of
   * group `b`'s other particles, then moves at once, so later particles of `a` see it
   * already moved.
   */
  method Rule(particles: seq<Particle>, groups: seq<Group>, gMaps: Store.GMaps, a: nat, b: nat, store: Store.Store,
              sqrt: real -> real)
    requires Consistent(particles, groups) && IsSqrt(sqrt) && a < |groups| && b < |groups|
    requires groups[a].color in gMaps && groups[b].color in gMaps[groups[a].color]
    modifies particles
    ensures StatesOf(particles) == RuleSpec(old(StatesOf(particles)), SpansOf(groups)[a].members, SpansOf(groups)[b].members,
      Gain(gMaps, groups[a].color, groups[b].color), Env(store.states.radius, store.states.pushBackForce), sqrt)
  {
    var groupA := groups[a];
    var groupB := groups[b];
    var g := gMaps[groupA.color][groupB.color] / 100.0;
    GroupMembers(particles, groups, a);
    GroupMembers(particles, groups, b);
    UnaliasedIsDistinct(particles);
    ghost var ia := SpansOf(groups)[a].members;
    ghost var ib := SpansOf(groups)[b].members;
    ghost var env := Env(store.states.radius, store.states.pushBackForce);
    ghost var ps := StatesOf(particles);
    assert g == Gain(gMaps, groups[a].color, groups[b].color);
    RuleLoop(particles, groupA, groupB, ia, ib, g, store, sqrt);
    assert StatesOf(particles) == RuleSpec(ps, ia, ib, g, env, sqrt);
  }

  /** One pass of `update`'s outer loop: `rule(groups[a], groupB)` for every group `groupB`. */
  method RuleRow(particles: seq<Particle>, groups: seq<Group>, gMaps: Store.GMaps, a: nat, store: Store.Store,
                 sqrt: real -> real, ghost ps0: seq<PState>)
    requires Consistent(particles, groups) && IsSqrt(sqrt) && HasGains(gMaps, SpansOf(groups))
    requires a < |groups| && |ps0| == |particles|
    requires StatesOf(particles) == RulesFold(ps0, SpansOf(groups), gMaps, Env(store.states.radius, store.states.pushBackForce),
      sqrt, GroupPairsUpTo(|groups|, a, 0))
    modifies particles
    ensures StatesOf(particles) == RulesFold(ps0, SpansOf(groups), gMaps, Env(store.states.radius, store.states.pushBackForce),
      sqrt, GroupPairsUpTo(|groups|, a, |groups|))
  {
    for b := 0 to |groups|
      invariant StatesOf(particles) == RulesFold(ps0, SpansOf(groups), gMaps,
        Env(store.states.radius, store.states.pushBackForce), sqrt, GroupPairsUpTo(|groups|, a, b))
    {
      RuleNext(particles, groups, gMaps, a, b, store, sqrt, ps0);
    }
  }

  /** The inner loop's body of `update`: one more group pair's `rule`. */
  method RuleNext(particles: seq<Particle>, groups: seq<Group>, gMaps: Store.GMaps, a: nat, b: nat, store: Store.Store,
                  sqrt: real -> real, ghost ps0: seq<PState>)
    requires Consistent(particles, groups) && IsSqrt(sqrt) && HasGains(gMaps, SpansOf(groups))
    requires a < |groups| && b < |groups| && |ps0| == |particles|
    requires StatesOf(particles) == RulesFold(ps0, SpansOf(groups), gMaps, Env(store.states.radius, store.states.pushBackForce),
      sqrt, GroupPairsUpTo(|groups|, a, b))
    modifies particles
    ensures StatesOf(particles) == RulesFold(ps0, SpansOf(groups), gMaps, Env(store.states.radius, store.states.pushBackForce),
      sqrt, GroupPairsUpTo(|groups|, a, b + 1))
  {
    ghost var spans := SpansOf(groups);
    ghost var env := Env(store.states.radius, store.states.pushBackForce);
    ghost var q := StatesOf(particles);
    RulesFoldNext(ps0, spans, gMaps, env, sqrt, a, b);
    SpanShape(groups, a);
    SpanShape(groups, b);
    Rule(particles, groups, gMaps, a, b, store, sqrt);
    assert StatesOf(particles) == RuleAt(q, spans, gMaps, env, sqrt, a, b);
  }

  /** The nested loops of `update`: `rule(groupA, groupB)` for every ordered pair of groups. */
  method ApplyRules(particles: seq<Particle>, groups: seq<Group>, gMaps: Store.GMaps, store: Store.Store, sqrt: real -> real)
    requires Consistent(particles, groups) && IsSqrt(sqrt) && HasGains(gMaps, SpansOf(groups))
    modifies particles
    ensures StatesOf(particles) == RulesFold(old(StatesOf(particles)), SpansOf(groups), gMaps,
      Env(store.states.radius, store.states.pushBackForce), sqrt, GroupPairs(|groups|))
  {
    ghost var ps0 := StatesOf(particles);
    for a := 0 to |groups|
      invariant StatesOf(particles) == RulesFold(ps0, SpansOf(groups), gMaps,
        Env(store.states.radius, store.states.pushBackForce), sqrt, GroupPairsUpTo(|groups|, a, 0))
    {
      RuleRow(particles, groups, gMaps, a, store, sqrt, ps0);
    }
  }

  /** Particles at different positions of the flat list are different objects. */
  lemma SameParticleSamePosition(particles: seq<Particle>, j: nat, k: nat)
    requires Unaliased(particles) && j < |particles| && k < |particles|
    ensures particles[j] == particles[k] <==> j == k
  {
    if j != k {
      assert Apart(particles, j, k);
    }
  }

  /**
   * The inner loop of `rule`: the force on `particles[i]` from the particles of `groupB`,
   * skipping the particle itself.
   */
  method SumForce(particles: seq<Particle>, particle: Particle, groupB: Group, ghost i: nat, ghost ib: seq<nat>, g: real, sqrt: real -> real)
    returns (fx: real, fy: real, fz: real)
    requires Unaliased(particles) && IsSqrt(sqrt) && i < |particles| && particles[i] == particle
    requires |ib| == |groupB.particles|
    requires forall m :: 0 <= m < |ib| ==> ib[m] < |particles| && particles[ib[m]] == groupB.particles[m]
    ensures InRange(ib, |StatesOf(particles)|) && Vec3(fx, fy, fz) == Force(StatesOf(particles), i, ib, g, sqrt)
  {
    ghost var ps := StatesOf(particles);
    StatesOfAt(particles);
    fx, fy, fz := 0.0, 0.0, 0.0;
    for m := 0 to |groupB.particles|
      invariant Vec3(fx, fy, fz) == Force(ps, i, ib[..m], g, sqrt)
    {
      var particleB := groupB.particles[m];
      SameParticleSamePosition(particles, i, ib[m]);
      ForceStep(ps, i, ib, m, g, sqrt);
      if particle == particleB {
        continue;
      }
      fx, fy, fz := Push(fx, fy, fz, particle.translate, particleB.translate, g, sqrt);
    }
    assert ib[..|groupB.particles|] == ib;
  }

  /** One pass of `rule`'s outer loop: `particles[i]` sums its force, then moves. */
  method Act(particles: seq<Particle>, particle: Particle, groupB: Group, ghost i: nat, ghost ib: seq<nat>, g: real, store: Store.Store, sqrt: real -> real)
    requires Unaliased(particles) && IsSqrt(sqrt) && i < |particles| && particles[i] == particle
    requires |ib| == |groupB.particles|
    requires forall m :: 0 <= m < |ib| ==> ib[m] < |particles| && particles[ib[m]] == groupB.particles[m]
    modifies particle
    ensures InRange(ib, |particles|)
    ensures StatesOf(particles) == old(StatesOf(particles))[i := Move(old(StatesOf(particles))[i], Force(old(StatesOf(particles)), i, ib, g, sqrt),
      Env(store.states.radius, store.states.pushBackForce), sqrt)]
  {
    ghost var ps := StatesOf(particles);
    StatesOfAt(particles);
    var fx, fy, fz := SumForce(particles, particle, groupB, i, ib, g, sqrt);
    Advance(particle, fx, fy, fz);
    PullBack(particle, store, sqrt);
    StatesOfAt(particles);
    forall j | 0 <= j < |particles|
      ensures StatesOf(particles)[j] == ps[i := Move(ps[i], Force(ps, i, ib, g, sqrt), Env(store.states.radius, store.states.pushBackForce), sqrt)][j]
    {
      SameParticleSamePosition(particles, i, j);
    }
  }

  /** `rule`'s outer loop, over the particles of `groupA`, whose positions in `particles` are `ia`. */
  method RuleLoop(particles: seq<Particle>, groupA: Group, groupB: Group, ghost ia: seq<nat>, ghost ib: seq<nat>, g: real, store: Store.Store,
                  sqrt: real -> real)
    requires Unaliased(particles) && IsSqrt(sqrt)
    requires |ia| == |groupA.particles| && |ib| == |groupB.particles|
    requires forall m :: 0 <= m < |ia| ==> ia[m] < |particles| && particles[ia[m]] == groupA.particles[m]
    requires forall m :: 0 <= m < |ib| ==> ib[m] < |particles| && particles[ib[m]] == groupB.particles[m]
    modifies particles
    ensures InRange(ia, |particles|) && InRange(ib, |particles|)
    ensures StatesOf(particles) == RuleSpec(old(StatesOf(particles)), ia, ib, g, Env(store.states.radius, store.states.pushBackForce), sqrt)
  {
    ghost var ps0 := StatesOf(particles);
    ghost var env := Env(store.states.radius, store.states.pushBackForce);
    for k := 0 to |groupA.particles|
      invariant StatesOf(particles) == RuleUpTo(ps0, ia, ib, g, env, sqrt, k)
    {
      var particle := groupA.particles[k];
      Act(particles, particle, groupB, ia[k], ib, g, store, sqrt);
    }
  }

  /** The end of `rule`'s outer loop body: `velocity = (velocity + force) * 0.5`, then `translate += velocity`. */
  method Advance(particle: Particle, fx: real, fy: real, fz: real)
    modifies particle
    ensures var v := Scaled(Add(old(particle.velocity), Vec3(fx, fy, fz)), 0.5);
      particle.velocity == v && particle.translate == Add(old(particle.translate), v)
  {
    particle.velocity := Vec3((particle.velocity.x + fx) * 0.5, (particle.velocity.y + fy) * 0.5, (particle.velocity.z + fz) * 0.5);
    particle.translate := Vec3(particle.translate.x + particle.velocity.x, particle.translate.y + particle.velocity.y,
                               particle.translate.z + particle.velocity.z);
  }

  /** The rest of `rule`'s inner loop body: within the cutoff, add `g / d` times the difference to the force. */
  method Push(fx: real, fy: real, fz: real, p: Vec3, q: Vec3, g: real, sqrt: real -> real)
    returns (gx: real, gy: real, gz: real)
    requires IsSqrt(sqrt)
    ensures Vec3(gx, gy, gz) == Add(Vec3(fx, fy, fz), Contribution(p, q, g, sqrt))
  {
    var (d, delta) := Distances(p, q, sqrt);
    if d != 0.0 && d >= 0.0 && d <= Cutoff {
      var f := g * 1.0 / d;
      gx, gy, gz := fx + f * delta.x, fy + f * delta.y, fz + f * delta.z;
      assert Contribution(p, q, g, sqrt) == Scaled(delta, f);
    } else {
      gx, gy, gz := fx, fy, fz;
      assert Contribution(p, q, g, sqrt) == Zero;
    }
  }

  /** `rule`'s containment: beyond `store.radius` a particle is pulled towards the origin by `pushBackForce / 1000`. */
  method PullBack(particle: Particle, store: Store.Store, sqrt: real -> real)
    requires IsSqrt(sqrt)
    modifies particle
    ensures particle.translate == Contain(old(particle.translate), Env(store.states.radius, store.states.pushBackForce), sqrt)
    ensures particle.velocity == old(particle.velocity)
  {
    if Magnitude(particle.translate, sqrt) > store.states.radius {
      particle.translate := Lerp(particle.translate, Zero, store.states.pushBackForce / 1000.0);
    }
  }

  /**
   * `collide(particleA, particleB)`: when the two overlap, each is moved by a quarter of the
   * overlap times their difference, apart from each other.
   */
  method CollideParticles(particleA: Particle, particleB: Particle, sqrt: real -> real) returns (hit: bool)
    requires IsSqrt(sqrt)
    modifies particleA, particleB
    ensures (hit, particleA.State(), particleB.State()) == Collide(old(particleA.State()), old(particleB.State()), sqrt)
  {
    ghost var a0 := particleA.State();
    ghost var b0 := particleB.State();
    var (d, delta) := Distances(particleB.translate, particleA.translate, sqrt);
    var overlap := particleA.radius + particleB.radius - d;
    if overlap <= 0.0 {
      return false;
    }
    ghost var shift := Shift(delta, overlap);
    var x := delta.x * overlap / 4.0;
    var y := delta.y * overlap / 4.0;
    var z := delta.z * overlap / 4.0;
    particleA.translate := Vec3(particleA.translate.x - x, particleA.translate.y - y, particleA.translate.z - z);
    particleB.translate := Vec3(particleB.translate.x + x, particleB.translate.y + y, particleB.translate.z + z);
    if particleA == particleB {
      ShiftOfSelf(a0.translate, overlap);
      assert particleA.translate == a0.translate;
    } else {
      assert particleA.translate == Sub(a0.translate, shift);
      assert particleB.translate == Add(b0.translate, shift);
    }
    return true;
  }

  /** Positions `k` and `l` of the list hold different particles. */
  predicate Apart(ps: seq<Particle>, k: nat, l: nat) {
    k < |ps| && l < |ps| ==> ps[k] != ps[l]
  }

  /**
   * `Distinct` for particle lists, stated through `Apart` so that the solver instantiates it
   * only for the positions a proof names.
   */
  ghost predicate Unaliased(ps: seq<Particle>) {
    forall k: nat, l: nat {:trigger Apart(ps, k, l)} :: k != l ==> Apart(ps, k, l)
  }

  lemma UnaliasedIsDistinct(ps: seq<Particle>)
    ensures Unaliased(ps) <==> Distinct(ps)
  {
    if Distinct(ps) {
      forall k: nat, l: nat | k != l
        ensures Apart(ps, k, l)
      {
        if k < |ps| && l < |ps| {
          if k < l { assert ps[k] != ps[l]; } else { assert ps[l] != ps[k]; }
        }
      }
    }
    if Unaliased(ps) {
      forall k, l | 0 <= k < l < |ps|
        ensures ps[k] != ps[l]
      {
        assert Apart(ps, k, l);
      }
    }
  }

  /**
   * `collide(particles[i], particles[j])` in the sweep: the two states change as `Collide`
   * says and no other does.
   */
  method CollidePair(particles: seq<Particle>, i: nat, j: nat, sqrt: real -> real) returns (hit: bool)
    requires Unaliased(particles) && IsSqrt(sqrt) && i < j < |particles|
    modifies particles[i], particles[j]
    ensures hit == Collide(old(StatesOf(particles))[i], old(StatesOf(particles))[j], sqrt).0
    ensures StatesOf(particles) == CollideAt(old(StatesOf(particles)), i, j, sqrt)
  {
    ghost var ps := StatesOf(particles);
    StatesOfAt(particles);
    UnaliasedIsDistinct(particles);
    hit := CollideParticles(particles[i], particles[j], sqrt);
    StatesOfAt(particles);
    var (_, a, b) := Collide(ps[i], ps[j], sqrt);
    forall k | 0 <= k < |particles|
      ensures StatesOf(particles)[k] == ps[i := a][j := b][k]
    {
    }
  }

  /**
   * One pass of the sweep's outer loop: `collide(particles[i], particles[j])` for every
   * `j > i`, which brings the sweep to the start of row `i + 1`.
   */
  method CollideRow(particles: seq<Particle>, i: nat, sqrt: real -> real, ghost ps0: seq<PState>)
    requires Unaliased(particles) && IsSqrt(sqrt) && i < |particles| && |ps0| == |particles|
    requires StatesOf(particles) == CollideFold(ps0, SweepPairs(|particles|, i, i + 1), sqrt)
    modifies particles
    ensures StatesOf(particles) == CollideFold(ps0, SweepPairs(|particles|, i + 1, i + 2), sqrt)
  {
    for j := i + 1 to |particles|
      invariant StatesOf(particles) == CollideFold(ps0, SweepPairs(|particles|, i, j), sqrt)
    {
      CollideNext(particles, i, j, sqrt, ps0);
    }
    SweepPairsNextRow(|particles|, i);
  }

  /** The inner loop's body of the sweep: one more pair of row `i` collided. */
  method CollideNext(particles: seq<Particle>, i: nat, j: nat, sqrt: real -> real, ghost ps0: seq<PState>)
    requires Unaliased(particles) && IsSqrt(sqrt) && i < j < |particles| && |ps0| == |particles|
    requires StatesOf(particles) == CollideFold(ps0, SweepPairs(|particles|, i, j), sqrt)
    modifies particles[i], particles[j]
    ensures StatesOf(particles) == CollideFold(ps0, SweepPairs(|particles|, i, j + 1), sqrt)
  {
    CollideFoldNext(ps0, i, j, sqrt);
    var _ := CollidePair(particles, i, j, sqrt);
  }

  /** The collision sweep of `update`: `collide` on every index pair `i < j`, in order. */
  method CollideAll(particles: seq<Particle>, sqrt: real -> real)
    requires Unaliased(particles) && IsSqrt(sqrt)
    modifies particles
    ensures StatesOf(particles) == CollideFold(old(StatesOf(particles)), CollisionPairs(|particles|), sqrt)
  {
    ghost var ps0 := StatesOf(particles);
    var i := 0;
    while i < |particles| - 1
      invariant i == 0 || i <= |particles| - 1
      invariant StatesOf(particles) == CollideFold(ps0, SweepPairs(|particles|, i, i + 1), sqrt)
    {
      CollideRow(particles, i, sqrt, ps0);
      i := i + 1;
    }
    SweepPairsLastRow(|particles|, i);
  }
}
