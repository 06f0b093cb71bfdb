/**
 * The gain table `gMaps` of src/main.ts on values: the fixed list of colours, the table
 * `randomGMaps` draws, and the copy `applySnapshot` makes of a snapshot's table.
 */
module Gains {
  import opened Utils
  import Store

  /** `colors`: the ten group colours, in the order groups are created. */
  const Colors: seq<string> := [
    "#fb7185", "#fb923c", "#facc15", "#4ade80", "#22d3ee",
    "#60a5fa", "#a78bfa", "#e879f9", "#ffffff", "#94a3b8"]

  predicate DistinctColors(cs: seq<string>) {
    forall k, l :: 0 <= k < l < |cs| ==> cs[k] != cs[l]
  }

  lemma ColorsExact()
    ensures |Colors| == 10 && DistinctColors(Colors)
  {
  }

  /** The inner loop of `randomGMaps`: a fresh row with one `randomInt(minG, maxG)` per colour. */
  function RandomRow(minG: real, maxG: real, draws: seq<real>, cs: seq<string>): map<string, real>
    requires |draws| == |cs| && forall k :: 0 <= k < |draws| ==> 0.0 <= draws[k] < 1.0
    decreases |cs|
  {
    if cs == [] then map[]
    else
      var n := |cs| - 1;
      RandomRow(minG, maxG, draws[..n], cs[..n])[cs[n] := RandomInt(minG, maxG, draws[n])]
  }

  predicate DrawsFit(draws: seq<seq<real>>, rows: nat, columns: nat) {
    |draws| == rows &&
    forall a :: 0 <= a < rows ==>
      |draws[a]| == columns && forall b :: 0 <= b < columns ==> 0.0 <= draws[a][b] < 1.0
  }

  /** The outer loop of `randomGMaps`: every colour's row replaced by a fresh random row. */
  function RandomTable(gMaps: Store.GMaps, minG: real, maxG: real, draws: seq<seq<real>>, cs: seq<string>, columns: seq<string>): Store.GMaps
    requires DrawsFit(draws, |cs|, |columns|)
    decreases |cs|
  {
    if cs == [] then gMaps
    else
      var n := |cs| - 1;
      RandomTable(gMaps, minG, maxG, draws[..n], cs[..n], columns)[cs[n] := RandomRow(minG, maxG, draws[n], columns)]
  }

  lemma RandomRowSnoc(minG: real, maxG: real, draws: seq<real>, cs: seq<string>, b: nat)
    requires |draws| == |cs| && forall k :: 0 <= k < |draws| ==> 0.0 <= draws[k] < 1.0
    requires b < |cs|
    ensures RandomRow(minG, maxG, draws[..b + 1], cs[..b + 1]) ==
      RandomRow(minG, maxG, draws[..b], cs[..b])[cs[b] := RandomInt(minG, maxG, draws[b])]
  {
    assert draws[..b + 1][..b] == draws[..b] && cs[..b + 1][..b] == cs[..b];
  }

  lemma DrawsFitPrefix(draws: seq<seq<real>>, rows: nat, columns: nat, a: nat)
    requires DrawsFit(draws, rows, columns) && a <= rows
    ensures DrawsFit(draws[..a], a, columns)
  {
  }

  lemma RandomTableSnoc(gMaps: Store.GMaps, minG: real, maxG: real, draws: seq<seq<real>>, cs: seq<string>,
                        columns: seq<string>, a: nat)
    requires DrawsFit(draws, |cs|, |columns|) && a < |cs|
    ensures DrawsFit(draws[..a], a, |columns|) && DrawsFit(draws[..a + 1], a + 1, |columns|)
    ensures RandomTable(gMaps, minG, maxG, draws[..a + 1], cs[..a + 1], columns) ==
      RandomTable(gMaps, minG, maxG, draws[..a], cs[..a], columns)[cs[a] := RandomRow(minG, maxG, draws[a], columns)]
  {
    DrawsFitPrefix(draws, |cs|, |columns|, a);
    DrawsFitPrefix(draws, |cs|, |columns|, a + 1);
    assert draws[..a + 1][..a] == draws[..a] && cs[..a + 1][..a] == cs[..a];
  }

  /** The row drawn for the colours `cs` has exactly those colours as keys. */
  lemma {:induction false} RandomRowKeys(minG: real, maxG: real, draws: seq<real>, cs: seq<string>)
    requires |draws| == |cs| && forall k :: 0 <= k < |draws| ==> 0.0 <= draws[k] < 1.0
    ensures forall c :: c in RandomRow(minG, maxG, draws, cs) <==> c in cs
    decreases |cs|
  {
    if cs != [] {
      var n := |cs| - 1;
      RandomRowKeys(minG, maxG, draws[..n], cs[..n]);
      assert cs == cs[..n] + [cs[n]];
    }
  }

  /** Colour `cs[b]`'s gain in the row is the `b`-th draw scaled into `[minG, maxG]`. */
  lemma {:induction false} RandomRowAt(minG: real, maxG: real, draws: seq<real>, cs: seq<string>)
    requires |draws| == |cs| && forall k :: 0 <= k < |draws| ==> 0.0 <= draws[k] < 1.0
    requires DistinctColors(cs)
    ensures forall b :: 0 <= b < |cs| ==>
      cs[b] in RandomRow(minG, maxG, draws, cs) && RandomRow(minG, maxG, draws, cs)[cs[b]] == RandomInt(minG, maxG, draws[b])
    decreases |cs|
  {
    if cs != [] {
      var n := |cs| - 1;
      var prev := RandomRow(minG, maxG, draws[..n], cs[..n]);
      var r := RandomRow(minG, maxG, draws, cs);
      RandomRowKeys(minG, maxG, draws[..n], cs[..n]);
      RandomRowAt(minG, maxG, draws[..n], cs[..n]);
      assert r == prev[cs[n] := RandomInt(minG, maxG, draws[n])];
      forall b | 0 <= b < |cs|
        ensures cs[b] in r && r[cs[b]] == RandomInt(minG, maxG, draws[b])
      {
        if b < n {
          assert cs[..n][b] == cs[b] && draws[..n][b] == draws[b] && cs[b] != cs[n];
        }
      }
    }
  }

  /** The table after the rows of `cs` are drawn has the old keys and `cs` as keys. */
  lemma {:induction false} RandomTableKeys(gMaps: Store.GMaps, minG: real, maxG: real, draws: seq<seq<real>>,
                                           cs: seq<string>, columns: seq<string>)
    requires DrawsFit(draws, |cs|, |columns|)
    ensures forall c :: c in RandomTable(gMaps, minG, maxG, draws, cs, columns) <==> c in gMaps || c in cs
    decreases |cs|
  {
    if cs != [] {
      var n := |cs| - 1;
      RandomTableKeys(gMaps, minG, maxG, draws[..n], cs[..n], columns);
      assert cs == cs[..n] + [cs[n]];
    }
  }

  /** Rows of keys outside `cs` are left as they were. */
  lemma {:induction false} RandomTableKeeps(gMaps: Store.GMaps, minG: real, maxG: real, draws: seq<seq<real>>,
                                            cs: seq<string>, columns: seq<string>)
    requires DrawsFit(draws, |cs|, |columns|)
    ensures forall c :: c in gMaps && c !in cs ==>
      c in RandomTable(gMaps, minG, maxG, draws, cs, columns) && RandomTable(gMaps, minG, maxG, draws, cs, columns)[c] == gMaps[c]
    decreases |cs|
  {
    if cs != [] {
      var n := |cs| - 1;
      RandomTableKeys(gMaps, minG, maxG, draws[..n], cs[..n], columns);
      RandomTableKeeps(gMaps, minG, maxG, draws[..n], cs[..n], columns);
      forall c | c in gMaps && c !in cs
        ensures c in RandomTable(gMaps, minG, maxG, draws, cs, columns)
        ensures RandomTable(gMaps, minG, maxG, draws, cs, columns)[c] == gMaps[c]
      {
        assert cs == cs[..n] + [cs[n]];
        assert c !in cs[..n] && c != cs[n];
      }
    }
  }

  /** Row `cs[a]` of the table is the row drawn from the `a`-th list of draws. */
  lemma {:induction false} RandomTableAt(gMaps: Store.GMaps, minG: real, maxG: real, draws: seq<seq<real>>,
                                         cs: seq<string>, columns: seq<string>)
    requires DrawsFit(draws, |cs|, |columns|) && DistinctColors(cs)
    ensures forall a :: 0 <= a < |cs| ==>
      cs[a] in RandomTable(gMaps, minG, maxG, draws, cs, columns) &&
      RandomTable(gMaps, minG, maxG, draws, cs, columns)[cs[a]] == RandomRow(minG, maxG, draws[a], columns)
    decreases |cs|
  {
    if cs != [] {
      var n := |cs| - 1;
      var prev := RandomTable(gMaps, minG, maxG, draws[..n], cs[..n], columns);
      var t := RandomTable(gMaps, minG, maxG, draws, cs, columns);
      RandomTableKeys(gMaps, minG, maxG, draws[..n], cs[..n], columns);
      RandomTableAt(gMaps, minG, maxG, draws[..n], cs[..n], columns);
      assert t == prev[cs[n] := RandomRow(minG, maxG, draws[n], columns)];
      forall a | 0 <= a < |cs|
        ensures cs[a] in t && t[cs[a]] == RandomRow(minG, maxG, draws[a], columns)
      {
        if a < n {
          assert cs[..n][a] == cs[a] && draws[..n][a] == draws[a] && cs[a] != cs[n];
        }
      }
    }
  }

  /**
   * After `randomGMaps` every ordered pair of the ten colours has a gain, and that gain is
   * `minG` plus a whole number below `maxG - minG + 1`, drawn by `randomInt(minG, maxG)`.
   * Rows of other keys are left as they were.
   */
  lemma RandomGMapsComplete(gMaps: Store.GMaps, minG: real, maxG: real, draws: seq<seq<real>>)
    requires DrawsFit(draws, |Colors|, |Colors|)
    ensures var t := RandomTable(gMaps, minG, maxG, draws, Colors, Colors);
      && (forall c :: c in t <==> c in gMaps || c in Colors)
      && (forall c :: c in gMaps && c !in Colors ==> t[c] == gMaps[c])
      && (forall a, b :: 0 <= a < |Colors| && 0 <= b < |Colors| ==>
            (forall c :: c in t[Colors[a]] <==> c in Colors) &&
            t[Colors[a]][Colors[b]] == RandomInt(minG, maxG, draws[a][b]) &&
            (minG <= maxG ==> minG <= t[Colors[a]][Colors[b]] < maxG + 1.0))
  {
    ColorsExact();
    RandomTableKeys(gMaps, minG, maxG, draws, Colors, Colors);
    RandomTableKeeps(gMaps, minG, maxG, draws, Colors, Colors);
    RandomTableAt(gMaps, minG, maxG, draws, Colors, Colors);
    forall a | 0 <= a < |Colors|
      ensures forall c :: c in RandomRow(minG, maxG, draws[a], Colors) <==> c in Colors
      ensures forall b :: 0 <= b < |Colors| ==>
        Colors[b] in RandomRow(minG, maxG, draws[a], Colors) &&
        RandomRow(minG, maxG, draws[a], Colors)[Colors[b]] == RandomInt(minG, maxG, draws[a][b])
    {
      RandomRowKeys(minG, maxG, draws[a], Colors);
      RandomRowAt(minG, maxG, draws[a], Colors);
    }
  }

  /**
   * The inner loop of `applySnapshot`: `row[colorB] = snapshotRow[colorB]` for every colour;
   * a colour missing from the snapshot row leaves no gain behind.
   */
  function CopyRow(row: map<string, real>, snapshotRow: map<string, real>, cs: seq<string>): map<string, real>
    decreases |cs|
  {
    if cs == [] then row
    else
      var n := |cs| - 1;
      var r := CopyRow(row, snapshotRow, cs[..n]);
      if cs[n] in snapshotRow then r[cs[n] := snapshotRow[cs[n]]] else r - {cs[n]}
  }

  /**
   * The outer loop of `applySnapshot` over the gain table: each colour's row is copied in
   * turn. A row missing from the live or the snapshot table is a `TypeError` in the source,
   * which ends the copy there (`false`) with the earlier rows already copied.
   */
  function CopyGains(gMaps: Store.GMaps, snapshot: Store.GMaps, cs: seq<string>): (Store.GMaps, bool)
    decreases |cs|
  {
    if cs == [] then (gMaps, true)
    else
      var n := |cs| - 1;
      var (t, ok) := CopyGains(gMaps, snapshot, cs[..n]);
      if !ok then (t, false)
      else if cs[n] !in t || cs[n] !in snapshot then (t, false)
      else (t[cs[n] := CopyRow(t[cs[n]], snapshot[cs[n]], Colors)], true)
  }

  /**
   * Once the copy has stopped at colour `cs[a]`, the later colours are never reached: the
   * whole copy ends with the table as it was when it stopped.
   */
  lemma {:induction false} CopyGainsStops(gMaps: Store.GMaps, snapshot: Store.GMaps, cs: seq<string>, a: nat, m: nat)
    requires a < m <= |cs|
    requires CopyGains(gMaps, snapshot, cs[..a]).1
    requires cs[a] !in CopyGains(gMaps, snapshot, cs[..a]).0 || cs[a] !in snapshot
    ensures CopyGains(gMaps, snapshot, cs[..m]) == (CopyGains(gMaps, snapshot, cs[..a]).0, false)
    decreases m
  {
    assert cs[..m][..m - 1] == cs[..m - 1];
    if m > a + 1 {
      CopyGainsStops(gMaps, snapshot, cs, a, m - 1);
    } else {
      assert cs[..m][m - 1] == cs[a];
    }
  }

  lemma {:induction false} CopyRowExact(row: map<string, real>, snapshotRow: map<string, real>, cs: seq<string>)
    ensures var r := CopyRow(row, snapshotRow, cs);
      && (forall c :: c in cs && c in snapshotRow ==> c in r && r[c] == snapshotRow[c])
      && (forall c :: c in cs && c !in snapshotRow ==> c !in r)
      && (forall c :: c !in cs ==> (c in r <==> c in row) && (c in row ==> r[c] == row[c]))
    decreases |cs|
  {
    if cs != [] {
      var n := |cs| - 1;
      CopyRowExact(row, snapshotRow, cs[..n]);
      assert forall c :: c in cs <==> c in cs[..n] || c == cs[n] by {
        assert cs == cs[..n] + [cs[n]];
      }
    }
  }

  /**
   * The copy keeps the set of rows, and it completes exactly when every colour has a row
   * in both tables.
   */
  lemma {:induction false} CopyGainsCompletes(gMaps: Store.GMaps, snapshot: Store.GMaps, cs: seq<string>)
    ensures var (t, ok) := CopyGains(gMaps, snapshot, cs);
      && t.Keys == gMaps.Keys
      && (ok <==> forall c :: c in cs ==> c in gMaps && c in snapshot)
    decreases |cs|
  {
    if cs != [] {
      var n := |cs| - 1;
      CopyGainsCompletes(gMaps, snapshot, cs[..n]);
      assert forall c :: c in cs <==> c in cs[..n] || c == cs[n] by {
        assert cs == cs[..n] + [cs[n]];
      }
    }
  }

  /**
   * When the copy completes, each colour's row holds the snapshot's gain for every colour
   * the snapshot has, and no gain for one it lacks; rows of other keys are unchanged.
   */
  lemma {:induction false} CopyGainsExact(gMaps: Store.GMaps, snapshot: Store.GMaps, cs: seq<string>)
    requires DistinctColors(cs)
    ensures var (t, ok) := CopyGains(gMaps, snapshot, cs);
      && (forall c :: c in gMaps && c !in cs ==> c in t && t[c] == gMaps[c])
      && (ok ==> forall a, b :: a in cs && b in Colors ==>
            a in t && a in snapshot &&
            (b in snapshot[a] ==> b in t[a] && t[a][b] == snapshot[a][b]) &&
            (b !in snapshot[a] ==> b !in t[a]))
    decreases |cs|
  {
    CopyGainsCompletes(gMaps, snapshot, cs);
    if cs != [] {
      var n := |cs| - 1;
      CopyGainsExact(gMaps, snapshot, cs[..n]);
      CopyGainsCompletes(gMaps, snapshot, cs[..n]);
      assert forall c :: c in cs <==> c in cs[..n] || c == cs[n] by {
        assert cs == cs[..n] + [cs[n]];
      }
      var (t, ok) := CopyGains(gMaps, snapshot, cs[..n]);
      assert cs[n] !in cs[..n];
      if ok && cs[n] in t && cs[n] in snapshot {
        CopyRowExact(t[cs[n]], snapshot[cs[n]], Colors);
      }
    }
  }
}
