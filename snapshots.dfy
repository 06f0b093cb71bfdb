/**
 * What `randomGMaps` and `applySnapshot` of src/main.ts do to particles, on values: the
 * settling of every particle before a new gain table is drawn, and the particles rebuilt
 * from a snapshot's groups.
 */
module Snapshots {
  import opened Wrappers
  import opened Vectors
  import opened Physics
  import Store

  /** `particle.translate.round()` then `particle.velocity.scale(0)`. */
  function Settle(p: PState): PState {
    PState(Rounded(p.translate), Scaled(p.velocity, 0.0), p.radius)
  }

  /** Every particle settled, in place and in order. */
  function Settled(ps: seq<PState>): (r: seq<PState>)
    ensures |r| == |ps|
  {
    seq(|ps|, k requires 0 <= k < |ps| => Settle(ps[k]))
  }

  /**
   * After settling, every particle is at rest on whole coordinates with its radius kept,
   * and settling again changes nothing.
   */
  lemma SettledAtRest(ps: seq<PState>)
    ensures forall k :: 0 <= k < |ps| ==>
      && Settled(ps)[k].velocity == Zero
      && IsWhole(Settled(ps)[k].translate)
      && Settled(ps)[k].translate == Rounded(ps[k].translate)
      && Settled(ps)[k].radius == ps[k].radius
    ensures Settled(Settled(ps)) == Settled(ps)
  {
    forall k | 0 <= k < |ps|
      ensures IsWhole(Rounded(ps[k].translate)) && Rounded(Rounded(ps[k].translate)) == Rounded(ps[k].translate)
      ensures Scaled(ps[k].velocity, 0.0) == Zero
    {
      RoundedIsWhole(ps[k].translate);
      ScaleLaws(ps[k].velocity, 0.0, 0.0);
    }
  }

  /**
   * The particle `applySnapshot` creates from a particle snapshot: stroke `radius * 2`
   * (so radius `radius * 2 / 2`), a copy of the position, and the snapshot's velocity
   * added to the zero vector when the snapshot has one.
   */
  function Restore(s: Store.ParticleSnapshot): PState {
    PState(s.translate, if s.velocity.Some? then AddPartial(Zero, s.velocity.value) else Zero, s.radius * 2.0 / 2.0)
  }

  /** The particles of one group snapshot, in snapshot order. */
  function RestoreGroup(ss: seq<Store.ParticleSnapshot>): (r: seq<PState>)
    ensures |r| == |ss|
  {
    seq(|ss|, k requires 0 <= k < |ss| => Restore(ss[k]))
  }

  lemma RestoreGroupSnoc(ss: seq<Store.ParticleSnapshot>, i: nat)
    requires i < |ss|
    ensures RestoreGroup(ss[..i + 1]) == RestoreGroup(ss[..i]) + [Restore(ss[i])]
  {
  }

  /** The flat list of particles rebuilt from the groups of a snapshot, group after group. */
  function Restored(gs: seq<Store.GroupSnapshot>): seq<PState>
    decreases |gs|
  {
    if gs == [] then [] else Restored(gs[..|gs| - 1]) + RestoreGroup(gs[|gs| - 1].particles)
  }

  lemma RestoredSnoc(gs: seq<Store.GroupSnapshot>, a: nat)
    requires a < |gs|
    ensures Restored(gs[..a + 1]) == Restored(gs[..a]) + RestoreGroup(gs[a].particles)
  {
    assert gs[..a + 1][..a] == gs[..a];
  }

  /** The number of particles a snapshot's groups hold. */
  function CountOf(gs: seq<Store.GroupSnapshot>): nat
    decreases |gs|
  {
    if gs == [] then 0 else CountOf(gs[..|gs| - 1]) + |gs[|gs| - 1].particles|
  }

  lemma {:induction false} RestoredLength(gs: seq<Store.GroupSnapshot>)
    ensures |Restored(gs)| == CountOf(gs)
    decreases |gs|
  {
    if gs != [] {
      RestoredLength(gs[..|gs| - 1]);
    }
  }

  /**
   * A restored particle keeps the snapshot's radius and position, and its velocity is the
   * snapshot's (missing components as 0) or zero when the snapshot has none.
   */
  lemma RestoreExact(s: Store.ParticleSnapshot)
    ensures Restore(s).radius == s.radius && Restore(s).translate == s.translate
    ensures s.velocity.None? ==> Restore(s).velocity == Zero
    ensures s.velocity.Some? ==>
      Restore(s).velocity == Vec3(OrZero(s.velocity.value.x), OrZero(s.velocity.value.y), OrZero(s.velocity.value.z))
  {
  }

  /** How a faithful capture records a particle: its radius, position and full velocity. */
  function Record(p: PState): Store.ParticleSnapshot {
    Store.ParticleSnapshot(p.radius, p.translate, Some(Whole(p.velocity)))
  }

  /** Restoring what was recorded gives back the particles exactly. */
  lemma RestoreGroupOfRecords(ps: seq<PState>)
    ensures RestoreGroup(seq(|ps|, k requires 0 <= k < |ps| => Record(ps[k]))) == ps
  {
    var ss := seq(|ps|, k requires 0 <= k < |ps| => Record(ps[k]));
    forall k | 0 <= k < |ps|
      ensures RestoreGroup(ss)[k] == ps[k]
    {
      assert ss[k] == Record(ps[k]);
      AddZero(ps[k].velocity);
    }
  }
}
