/**
 * The masked column updates on existing rows: the hydro-to-PHS flag change,
 * the transmission expander, the inflow scaler and the extendability toggles.
 * Each is a function from the old table to the new one.
 */
module HydroEdits {
  import opened Tables
  import opened Components
  import opened Text
  import opened Series

  /** The storage-unit mask of `convert_hydro_to_phs`: carrier exactly "hydro". */
  predicate IsHydroStorage(u: StorageUnit)
  {
    u.carrier == "hydro"
  }

  /**
   * `convert_hydro_to_phs`: every hydro storage unit may pump at its full
   * rating (p_min_pu = -1) and stores with efficiency 0.9; no other row and
   * no other attribute changes.
   */
  function PhsConverted(units: map<string, StorageUnit>): (r: map<string, StorageUnit>)
    ensures r.Keys == units.Keys
    ensures forall k :: k in units && IsHydroStorage(units[k]) ==>
              r[k].pMinPu == -1.0 && r[k].efficiencyStore == 0.9
    ensures forall k :: k in units ==>
              r[k].(pMinPu := units[k].pMinPu, efficiencyStore := units[k].efficiencyStore) == units[k]
    ensures forall k :: k in units && r[k] != units[k] ==> IsHydroStorage(units[k])
  {
    map k | k in units ::
      if IsHydroStorage(units[k]) then units[k].(pMinPu := -1.0, efficiencyStore := 0.9) else units[k]
  }

  /**
   * `expand_transmission_capacity`: every link becomes extendable and keeps
   * all its other attributes.
   */
  function TransmissionExpanded(links: map<string, Link>): (r: map<string, Link>)
    ensures r.Keys == links.Keys
    ensures forall k :: k in r ==> r[k].pNomExtendable
    ensures forall k :: k in links ==> r[k].(pNomExtendable := links[k].pNomExtendable) == links[k]
  {
    map k | k in links :: links[k].(pNomExtendable := true)
  }

  /** Whether `scale_hydro_inflow_all_countries` skips a unit: its lower-cased carrier contains "phs". */
  predicate SkipsInflow(u: StorageUnit)
  {
    HasInfix(Lower(u.carrier), "phs")
  }

  /**
   * The inflow series after `scale_hydro_inflow_all_countries`: the series of
   * every storage unit that is not skipped is multiplied by `factor`; skipped
   * units' series, and series of no storage unit, are kept. No series is
   * added or dropped.
   */
  function InflowSeriesScaled(units: map<string, StorageUnit>, inflow: map<string, seq<real>>, factor: real): (r: map<string, seq<real>>)
    ensures r.Keys == inflow.Keys
    ensures forall k :: k in inflow && k in units && !SkipsInflow(units[k]) ==>
              |r[k]| == |inflow[k]| && forall i :: 0 <= i < |r[k]| ==> r[k][i] == inflow[k][i] * factor
    ensures forall k :: k in inflow && (k !in units || SkipsInflow(units[k])) ==> r[k] == inflow[k]
  {
    map k | k in inflow :: if k in units && !SkipsInflow(units[k]) then Scale(inflow[k], factor) else inflow[k]
  }

  /** A unit with its numeric static inflow multiplied by `factor`. */
  function WithInflowScaled(u: StorageUnit, factor: real): (v: StorageUnit)
    requires u.inflow.Num?
    ensures v.inflow == Num(u.inflow.value * factor) && v.(inflow := u.inflow) == u
  {
    u.(inflow := Num(u.inflow.value * factor))
  }

  /** One row's static inflow after the scaler. */
  function StaticInflowScaledRow(u: StorageUnit, hasColumn: bool, factor: real): StorageUnit
  {
    if hasColumn && !SkipsInflow(u) && u.inflow.Num? then WithInflowScaled(u, factor) else u
  }

  /**
   * The storage table after `scale_hydro_inflow_all_countries`: when the
   * table has a static inflow column, the numeric inflow of every unit that
   * is not skipped is multiplied by `factor`; a cell that is not a number
   * raises, the error is swallowed and the cell kept. Nothing else changes.
   */
  function StaticInflowScaled(units: map<string, StorageUnit>, hasColumn: bool, factor: real): (r: map<string, StorageUnit>)
    ensures r.Keys == units.Keys
    ensures forall k :: k in units ==> r[k].(inflow := units[k].inflow) == units[k]
    ensures forall k :: k in units && hasColumn && !SkipsInflow(units[k]) && units[k].inflow.Num? ==>
              r[k].inflow == Num(units[k].inflow.value * factor)
    ensures forall k :: k in units && (!hasColumn || SkipsInflow(units[k]) || units[k].inflow.Blank?) ==>
              r[k] == units[k]
  {
    map k | k in units :: StaticInflowScaledRow(units[k], hasColumn, factor)
  }

  /** Scaling with no units in view keeps every series. */
  lemma InflowSeriesNone(inflow: map<string, seq<real>>, factor: real)
    ensures InflowSeriesScaled(map[], inflow, factor) == inflow
  {
  }

  /** Bringing one more unit into view scales its series, if it has one and is not skipped. */
  lemma InflowSeriesStep(units: map<string, StorageUnit>, inflow: map<string, seq<real>>, factor: real, k: string, u: StorageUnit)
    requires k !in units
    ensures InflowSeriesScaled(units[k := u], inflow, factor)
              == if k in inflow && !SkipsInflow(u) then InflowSeriesScaled(units, inflow, factor)[k := Scale(inflow[k], factor)]
                 else InflowSeriesScaled(units, inflow, factor)
  {
  }

  /** Bringing one more unit into view rewrites its row. */
  lemma StaticInflowStep(units: map<string, StorageUnit>, hasColumn: bool, factor: real, k: string, u: StorageUnit)
    ensures StaticInflowScaled(units[k := u], hasColumn, factor)
              == StaticInflowScaled(units, hasColumn, factor)[k := StaticInflowScaledRow(u, hasColumn, factor)]
  {
  }

  /**
   * Scaling the inflow by a non-zero factor is undone by scaling by its
   * inverse: the scaler neither loses nor reorders data, and it decides what
   * to skip on the carrier, which it does not change.
   */
  lemma InflowScalingInvertible(units: map<string, StorageUnit>, inflow: map<string, seq<real>>, hasColumn: bool, factor: real)
    requires factor != 0.0
    ensures InflowSeriesScaled(units, InflowSeriesScaled(units, inflow, factor), 1.0 / factor) == inflow
    ensures StaticInflowScaled(StaticInflowScaled(units, hasColumn, factor), hasColumn, 1.0 / factor) == units
  {
    var once := InflowSeriesScaled(units, inflow, factor);
    var twice := InflowSeriesScaled(units, once, 1.0 / factor);
    forall k | k in inflow ensures twice[k] == inflow[k] {
      if k in units && !SkipsInflow(units[k]) {
        ScaleInverse(inflow[k], factor);
      }
    }
    var scaled := StaticInflowScaled(units, hasColumn, factor);
    var back := StaticInflowScaled(scaled, hasColumn, 1.0 / factor);
    forall k | k in units ensures back[k] == units[k] {
      StaticRowRoundTrip(units[k], hasColumn, factor);
    }
  }

  /** The row-level round trip of `InflowScalingInvertible`. */
  lemma StaticRowRoundTrip(u: StorageUnit, hasColumn: bool, factor: real)
    requires factor != 0.0
    ensures StaticInflowScaledRow(StaticInflowScaledRow(u, hasColumn, factor), hasColumn, 1.0 / factor) == u
  {
    if hasColumn && !SkipsInflow(u) && u.inflow.Num? {
      MulInverse(u.inflow.value, factor);
    }
  }

  /** The storage mask of `scale_hydro_and_phs`: lower-cased carrier exactly "phs". */
  predicate IsPhsStorage(u: StorageUnit)
  {
    Lower(u.carrier) == "phs"
  }

  /**
   * `scale_hydro_and_phs` on the generators: a generator is extendable
   * afterwards exactly when it was before or is a hydro generator; nothing
   * else changes, and the row order is kept.
   */
  function HydroGeneratorsExtendable(gens: Table<Generator>): (t: Table<Generator>)
    ensures t.index == gens.index && t.rows.Keys == gens.rows.Keys
    ensures gens.Valid() ==> t.Valid()
    ensures forall k :: k in gens.rows ==>
              t.rows[k].pNomExtendable == (IsHydroGenerator(gens.rows[k]) || gens.rows[k].pNomExtendable)
    ensures forall k :: k in gens.rows ==>
              t.rows[k].(pNomExtendable := gens.rows[k].pNomExtendable) == gens.rows[k]
  {
    gens.MapRows(g => if IsHydroGenerator(g) then g.(pNomExtendable := true) else g)
  }

  /**
   * `scale_hydro_and_phs` on the storage units: a unit is extendable
   * afterwards exactly when it was before or its carrier is "phs" in any
   * letter case; nothing else changes.
   */
  function PhsStorageExtendable(units: map<string, StorageUnit>): (r: map<string, StorageUnit>)
    ensures r.Keys == units.Keys
    ensures forall k :: k in units ==>
              r[k].pNomExtendable == (IsPhsStorage(units[k]) || units[k].pNomExtendable)
    ensures forall k :: k in units ==>
              r[k].(pNomExtendable := units[k].pNomExtendable) == units[k]
  {
    map k | k in units :: if IsPhsStorage(units[k]) then units[k].(pNomExtendable := true) else units[k]
  }

  /**
   * The letters p, h, s, in either case, start at position `i` of `c`: the
   * carrier test written without lower-casing the string.
   */
  predicate PhsAt(c: string, i: nat)
  {
    i + 3 <= |c|
    && (c[i] == 'p' || c[i] == 'P')
    && (c[i + 1] == 'h' || c[i + 1] == 'H')
    && (c[i + 2] == 's' || c[i + 2] == 'S')
  }

  /** "phs" occurs in the lower-cased carrier at `i` exactly when `PhsAt` holds there. */
  lemma OccursPhsAt(c: string, i: nat)
    ensures OccursAt(Lower(c), "phs", i) <==> PhsAt(c, i)
  {
    if i + 3 <= |c| {
      var l := Lower(c);
      assert l[i..i + 3] == [l[i], l[i + 1], l[i + 2]];
    }
  }

  /** The inflow mask skips a unit exactly when its carrier contains "phs" in any case. */
  lemma SkipsInflowIffPhsAnyCase(u: StorageUnit)
    ensures SkipsInflow(u) <==> exists i: nat :: PhsAt(u.carrier, i)
  {
    if SkipsInflow(u) {
      var i: nat :| OccursAt(Lower(u.carrier), "phs", i);
      OccursPhsAt(u.carrier, i);
    }
    if exists i: nat :: PhsAt(u.carrier, i) {
      var i: nat :| PhsAt(u.carrier, i);
      OccursPhsAt(u.carrier, i);
    }
  }

  /** The storage mask selects a unit exactly when its carrier is "phs" in any case. */
  lemma IsPhsStorageIffPhsAnyCase(u: StorageUnit)
    ensures IsPhsStorage(u) <==> |u.carrier| == 3 && PhsAt(u.carrier, 0)
  {
    OccursPhsAt(u.carrier, 0);
    var l := Lower(u.carrier);
    if |u.carrier| == 3 {
      assert l[0..3] == l;
    }
  }

  /** Every unit the storage mask selects is also skipped by the inflow mask. */
  lemma PhsMaskInsideSkip(u: StorageUnit)
    ensures IsPhsStorage(u) ==> SkipsInflow(u)
  {
    if IsPhsStorage(u) {
      IsPhsStorageIffPhsAnyCase(u);
      SkipsInflowIffPhsAnyCase(u);
    }
  }

  /** A unit with carrier "hydro" is in neither mask: its inflow is scaled and its rating fixed. */
  lemma HydroCarrierScaled(u: StorageUnit)
    requires u.carrier == "hydro"
    ensures !SkipsInflow(u) && !IsPhsStorage(u)
  {
    SkipsInflowIffPhsAnyCase(u);
    IsPhsStorageIffPhsAnyCase(u);
  }

  /**
   * The inclusion of the storage mask in the inflow mask is strict: a unit
   * tagged "PHS" is in both, while a carrier such as "phs-open" is skipped
   * by the inflow scaler but not made extendable.
   */
  lemma MasksDiffer(u: StorageUnit, v: StorageUnit)
    requires u.carrier == "PHS" && v.carrier == "phs-open"
    ensures IsPhsStorage(u) && SkipsInflow(u)
    ensures !IsPhsStorage(v) && SkipsInflow(v)
  {
    assert Lower(u.carrier) == "phs";
    assert OccursAt(Lower(u.carrier), "phs", 0);
    assert Lower(v.carrier)[..3] == "phs";
    assert OccursAt(Lower(v.carrier), "phs", 0);
    assert |Lower(v.carrier)| == 8;
  }
}
