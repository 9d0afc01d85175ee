/**
 * The hydro retrofit: every hydro generator with a positive rating is turned
 * into a pumped-hydro plant made of a reservoir (a storage unit), a turbine
 * (a generator) and a pump (a link), all three on the generator's bus and
 * named after it; the original generator is optionally removed.
 */
module Retrofit {
  import opened Tables
  import opened Components

  /** Turbine efficiency. */
  const EffTurbine: real := 0.9
  /** Pump efficiency. */
  const EffPump: real := 0.85
  /** Initial reservoir size, in hours at the rated power (one week). */
  const ReservoirHours: real := 168.0
  /** Investment cost per MW of turbine or pump. */
  const CapexPhsPerMw: real := 1000000.0
  /** Investment cost per MWh of reservoir. */
  const CapexResPerMwh: real := 200000.0

  /**
   * `identify_hydro_generators`: a copy of the generators whose carrier is
   * "hydro", in table order, or an empty table when the generators table
   * has no carrier column.
   */
  function IdentifyHydro(gens: Table<Generator>, hasCarrierColumn: bool): (t: Table<Generator>)
    requires gens.Valid()
    ensures t.Valid()
    ensures !hasCarrierColumn ==> t.index == [] && t.rows == map[]
    ensures hasCarrierColumn ==> t.index == Filter(gens.index, gens.rows, IsHydroGenerator)
    ensures hasCarrierColumn ==>
              forall k :: k in t.rows <==> k in gens.rows && IsHydroGenerator(gens.rows[k])
    ensures forall k :: k in t.rows ==> t.rows[k] == gens.rows[k]
  {
    if hasCarrierColumn then gens.Where(IsHydroGenerator) else Table([], map[])
  }

  /** The rating the retrofit reads from a generator; a missing `p_nom` reads as 0. */
  function RatingOrZero(g: Generator): (p: real)
    ensures g.pNom.Blank? ==> p == 0.0
    ensures p != 0.0 ==> g.pNom == Num(p)
  {
    match g.pNom
    case Num(v) => v
    case Blank => 0.0
  }

  /** Whether the retrofit converts a generator: its rating is positive. */
  predicate Converts(g: Generator)
  {
    RatingOrZero(g) > 0.0
  }

  /** The name prefix of everything built for generator `gid`. */
  function BaseName(gid: string): string
  {
    "PHS_" + gid
  }

  /** The reservoir's name. */
  function StoreName(gid: string): string
  {
    BaseName(gid) + "_store"
  }

  /** The turbine's name. */
  function TurbineName(gid: string): string
  {
    BaseName(gid) + "_turb"
  }

  /** The pump link's name. */
  function PumpLinkName(gid: string): string
  {
    BaseName(gid) + "_pump_link"
  }

  /** A prefix and a fixed suffix determine what lies between them. */
  lemma AffixInjective(p: string, a: string, b: string, suffix: string)
    requires p + a + suffix == p + b + suffix
    ensures a == b
  {
    assert |a| == |b|;
    assert a == (p + a + suffix)[|p|..|p| + |a|];
    assert b == (p + b + suffix)[|p|..|p| + |b|];
  }

  /**
   * Distinct generators get distinct reservoirs, turbines and pumps, and a
   * turbine is never named like the generator it replaces.
   */
  lemma NamesInjective(a: string, b: string)
    ensures StoreName(a) == StoreName(b) ==> a == b
    ensures TurbineName(a) == TurbineName(b) ==> a == b
    ensures PumpLinkName(a) == PumpLinkName(b) ==> a == b
    ensures TurbineName(a) != a
  {
    if StoreName(a) == StoreName(b) {
      AffixInjective("PHS_", a, b, "_store");
    }
    if TurbineName(a) == TurbineName(b) {
      AffixInjective("PHS_", a, b, "_turb");
    }
    if PumpLinkName(a) == PumpLinkName(b) {
      AffixInjective("PHS_", a, b, "_pump_link");
    }
    assert |TurbineName(a)| > |a|;
  }

  /** One entry of the list the retrofit returns. */
  datatype Retrofit = Retrofit(genId: string, bus: string, pNom: real, storage: string, turbine: string, pumpLink: string)

  /** The entry recorded for generator `gid`. */
  function Entry(gid: string, g: Generator): (r: Retrofit)
    ensures r.genId == gid && r.bus == g.bus && r.pNom == RatingOrZero(g)
    ensures r.storage == StoreName(gid) && r.turbine == TurbineName(gid) && r.pumpLink == PumpLinkName(gid)
  {
    Retrofit(gid, g.bus, RatingOrZero(g), StoreName(gid), TurbineName(gid), PumpLinkName(gid))
  }

  /** The generator ids an entry list names, in order. */
  function GenIds(plan: seq<Retrofit>): (ids: seq<string>)
    ensures |ids| == |plan| && forall i :: 0 <= i < |plan| ==> ids[i] == plan[i].genId
  {
    seq(|plan|, i requires 0 <= i < |plan| => plan[i].genId)
  }

  /**
   * The list the retrofit returns after visiting the hydro generators
   * `ids` in order: one entry per generator with a positive rating, in
   * visiting order; generators with a rating of zero or less are skipped.
   */
  function Plan(ids: seq<string>, hydro: map<string, Generator>): (plan: seq<Retrofit>)
    requires forall k :: k in ids ==> k in hydro
    ensures GenIds(plan) == Filter(ids, hydro, Converts)
    ensures forall r :: r in plan ==> r.genId in ids && Converts(hydro[r.genId]) && r == Entry(r.genId, hydro[r.genId])
  {
    if ids == [] then []
    else
      var gid := ids[|ids| - 1];
      var rest := Plan(ids[..|ids| - 1], hydro);
      assert forall k :: k in ids[..|ids| - 1] ==> k in ids;
      if Converts(hydro[gid]) then
        assert GenIds(rest + [Entry(gid, hydro[gid])]) == GenIds(rest) + [gid];
        rest + [Entry(gid, hydro[gid])]
      else rest
  }

  /**
   * A hydro generator whose rating is zero or less (or missing) is skipped:
   * no entry names it, so no reservoir or pump link is built for it, and it
   * is not removed.
   */
  lemma SkippedGenerator(ids: seq<string>, hydro: map<string, Generator>, gid: string,
                         storageDefaults: StorageUnit, linkDefaults: Link)
    requires forall k :: k in ids ==> k in hydro
    requires gid in hydro && !Converts(hydro[gid])
    ensures Untouched(Plan(ids, hydro), gid)
    ensures StoreName(gid) !in Reservoirs(storageDefaults, Plan(ids, hydro))
    ensures PumpLinkName(gid) !in PumpLinks(linkDefaults, Plan(ids, hydro))
  {
    var plan := Plan(ids, hydro);
    forall r | r in plan ensures StoreName(r.genId) != StoreName(gid) && PumpLinkName(r.genId) != PumpLinkName(gid) {
      NamesInjective(r.genId, gid);
    }
  }

  /** A distinct sequence has as many elements as the set of its elements. */
  lemma {:induction false} DistinctCount(s: seq<string>)
    requires Distinct(s)
    ensures |set x | x in s| == |s|
  {
    if s != [] {
      var init, last := s[..|s| - 1], s[|s| - 1];
      assert Distinct(init);
      DistinctCount(init);
      assert (set x | x in s) == (set x | x in init) + {last};
      assert last !in init;
    }
  }

  /**
   * The returned list names every hydro generator with a positive rating
   * exactly once, in table order, and no other generator: its length is
   * the number of hydro generators with a positive rating.
   */
  lemma PlanCoversConverted(hydro: Table<Generator>)
    requires hydro.Valid()
    ensures var plan := Plan(hydro.index, hydro.rows);
            && Distinct(GenIds(plan))
            && (forall k :: k in GenIds(plan) <==> k in hydro.rows && Converts(hydro.rows[k]))
            && |plan| == |set k | k in hydro.rows && Converts(hydro.rows[k])|
  {
    var plan := Plan(hydro.index, hydro.rows);
    var ids := GenIds(plan);
    assert ids == Filter(hydro.index, hydro.rows, Converts);
    DistinctCount(ids);
    assert (set x | x in ids) == (set k | k in hydro.rows && Converts(hydro.rows[k]));
  }

  /** The reservoir built for an entry: no rating of its own, one week of energy at the entry's rating. */
  function Reservoir(defaults: StorageUnit, r: Retrofit): (u: StorageUnit)
    ensures u.bus == r.bus && u.pNom == Blank && u.eNom == r.pNom * ReservoirHours
    ensures u.efficiencyStore == 1.0 && u.standingLoss == 0.0 && u.capitalCost == CapexResPerMwh * u.eNom
  {
    var eNom := r.pNom * ReservoirHours;
    defaults.(bus := r.bus, pNom := Blank, eNom := eNom, efficiencyStore := 1.0,
              standingLoss := 0.0, capitalCost := CapexResPerMwh * eNom)
  }

  /** The turbine built for an entry: the entry's bus and rating, fixed size. */
  function Turbine(defaults: Generator, r: Retrofit): (g: Generator)
    ensures g.bus == r.bus && g.pNom == Num(r.pNom) && !g.pNomExtendable
    ensures g.marginalCost == 0.0 && g.efficiency == EffTurbine && g.capitalCost == CapexPhsPerMw * r.pNom
  {
    defaults.(bus := r.bus, pNom := Num(r.pNom), marginalCost := 0.0, efficiency := EffTurbine,
              pNomExtendable := false, capitalCost := CapexPhsPerMw * r.pNom)
  }

  /** The pump built for an entry: a link from the entry's bus to itself at the entry's rating. */
  function PumpLink(defaults: Link, r: Retrofit): (l: Link)
    ensures l.bus0 == r.bus && l.bus1 == r.bus && l.pNom == r.pNom
    ensures l.efficiency == EffPump && l.capitalCost == CapexPhsPerMw * r.pNom
  {
    defaults.(bus0 := r.bus, bus1 := r.bus, pNom := r.pNom, efficiency := EffPump,
              capitalCost := CapexPhsPerMw * r.pNom)
  }

  /** The reservoirs added for the entries of `plan`, by name. */
  function Reservoirs(defaults: StorageUnit, plan: seq<Retrofit>): (m: map<string, StorageUnit>)
    ensures m.Keys == set r | r in plan :: StoreName(r.genId)
  {
    if plan == [] then map[]
    else
      var r := plan[|plan| - 1];
      assert forall x :: x in plan <==> x in plan[..|plan| - 1] || x == r;
      Reservoirs(defaults, plan[..|plan| - 1])[StoreName(r.genId) := Reservoir(defaults, r)]
  }

  /** The pump links added for the entries of `plan`, by name. */
  function PumpLinks(defaults: Link, plan: seq<Retrofit>): (m: map<string, Link>)
    ensures m.Keys == set r | r in plan :: PumpLinkName(r.genId)
  {
    if plan == [] then map[]
    else
      var r := plan[|plan| - 1];
      assert forall x :: x in plan <==> x in plan[..|plan| - 1] || x == r;
      PumpLinks(defaults, plan[..|plan| - 1])[PumpLinkName(r.genId) := PumpLink(defaults, r)]
  }

  /** Every entry of a plan without repeated generators has its own reservoir, built for it. */
  lemma {:induction false} ReservoirsRows(defaults: StorageUnit, plan: seq<Retrofit>, r: Retrofit)
    requires DistinctIds(plan) && r in plan
    ensures Reservoirs(defaults, plan)[StoreName(r.genId)] == Reservoir(defaults, r)
  {
    var init, last := plan[..|plan| - 1], plan[|plan| - 1];
    if r != last {
      assert r in init;
      assert DistinctIds(init);
      ReservoirsRows(defaults, init, r);
      NamesInjective(r.genId, last.genId);
    }
  }

  /** Every entry of a plan without repeated generators has its own pump link, built for it. */
  lemma {:induction false} PumpLinksRows(defaults: Link, plan: seq<Retrofit>, r: Retrofit)
    requires DistinctIds(plan) && r in plan
    ensures PumpLinks(defaults, plan)[PumpLinkName(r.genId)] == PumpLink(defaults, r)
  {
    var init, last := plan[..|plan| - 1], plan[|plan| - 1];
    if r != last {
      assert r in init;
      assert DistinctIds(init);
      PumpLinksRows(defaults, init, r);
      NamesInjective(r.genId, last.genId);
    }
  }

  /** The generators table after the retrofit of one entry: its turbine is appended, and the original dropped if asked. */
  function RetrofitOne(gens: Table<Generator>, defaults: Generator, r: Retrofit, removeOld: bool): Table<Generator>
  {
    var t := gens.Insert(TurbineName(r.genId), Turbine(defaults, r));
    if removeOld then t.Delete(r.genId) else t
  }

  /** The generators table after the retrofit of every entry of `plan`, in order. */
  function RetrofitGenerators(gens: Table<Generator>, defaults: Generator, plan: seq<Retrofit>, removeOld: bool): Table<Generator>
  {
    if plan == [] then gens
    else RetrofitOne(RetrofitGenerators(gens, defaults, plan[..|plan| - 1], removeOld), defaults, plan[|plan| - 1], removeOld)
  }

  /** No two entries of `plan` retrofit the same generator. */
  ghost predicate DistinctIds(plan: seq<Retrofit>)
  {
    forall i, j :: 0 <= i < j < |plan| ==> plan[i].genId != plan[j].genId
  }

  /** Every entry of `plan` retrofits a generator of `gens` and no turbine name is taken in `gens`. */
  ghost predicate Applicable(gens: map<string, Generator>, plan: seq<Retrofit>)
  {
    forall r :: r in plan ==> r.genId in gens && TurbineName(r.genId) !in gens
  }

  /** A generator retrofitted by no entry of `plan`. */
  ghost predicate Untouched(plan: seq<Retrofit>, k: string)
  {
    forall r :: r in plan ==> r.genId != k
  }

  /** What one step does to a table it applies to. */
  ghost predicate RetrofitOneEffect'(t0: Table<Generator>, defaults: Generator, r: Retrofit, removeOld: bool)
  {
    var t := RetrofitOne(t0, defaults, r, removeOld);
            && t.Valid()
            && t.rows.Keys == t0.rows.Keys + {TurbineName(r.genId)} - (if removeOld then {r.genId} else {})
            && t.rows[TurbineName(r.genId)] == Turbine(defaults, r)
            && (forall k :: k in t.rows && k != TurbineName(r.genId) ==> t.rows[k] == t0.rows[k])
            && |t.rows| == |t0.rows| + (if removeOld then 0 else 1)
  }

  /** One step of `RetrofitGeneratorsEffect`: the retrofit of one generator still in the table. */
  lemma RetrofitOneEffect(t0: Table<Generator>, defaults: Generator, r: Retrofit, removeOld: bool)
    requires t0.Valid() && r.genId in t0.rows && TurbineName(r.genId) !in t0.rows
    ensures RetrofitOneEffect'(t0, defaults, r, removeOld)
  {
    NamesInjective(r.genId, r.genId);
    InsertThenDelete(t0, TurbineName(r.genId), Turbine(defaults, r), r.genId, removeOld);
  }

  /** The requires of the whole-table lemmas below. */
  ghost predicate Retrofittable(gens: Table<Generator>, plan: seq<Retrofit>)
  {
    gens.Valid() && DistinctIds(plan) && Applicable(gens.rows, plan)
  }

  /** The requires carry over to a prefix of the plan. */
  lemma RetrofittablePrefix(gens: Table<Generator>, plan: seq<Retrofit>)
    requires Retrofittable(gens, plan) && plan != []
    ensures Retrofittable(gens, plan[..|plan| - 1])
    ensures forall x :: x in plan <==> x in plan[..|plan| - 1] || x == plan[|plan| - 1]
    ensures Untouched(plan[..|plan| - 1], plan[|plan| - 1].genId)
  {
    assert forall x :: x in plan <==> x in plan[..|plan| - 1] || x == plan[|plan| - 1];
  }

  /** The table stays well formed. */
  lemma {:induction false} RetrofitKeepsValid(gens: Table<Generator>, defaults: Generator, plan: seq<Retrofit>, removeOld: bool)
    requires Retrofittable(gens, plan)
    ensures RetrofitGenerators(gens, defaults, plan, removeOld).Valid()
    decreases |plan|, 1
  {
    if plan != [] {
      StepApplies(gens, defaults, plan, removeOld);
    }
  }

  /**
   * A generator that is not removed (any generator without `removeOld`, one
   * no entry names with it) is kept as it was.
   */
  lemma {:induction false} RetrofitKeeps(gens: Table<Generator>, defaults: Generator, plan: seq<Retrofit>, removeOld: bool, k: string)
    requires Retrofittable(gens, plan)
    requires k in gens.rows && (!removeOld || Untouched(plan, k))
    ensures var t := RetrofitGenerators(gens, defaults, plan, removeOld);
            k in t.rows && t.rows[k] == gens.rows[k]
    decreases |plan|, 1
  {
    if plan != [] {
      RetrofittablePrefix(gens, plan);
      RetrofitKeeps(gens, defaults, plan[..|plan| - 1], removeOld, k);
      StepApplies(gens, defaults, plan, removeOld);
      assert TurbineName(plan[|plan| - 1].genId) != k;
    }
  }

  /** The last entry of a plan can be applied to the table the earlier entries leave behind. */
  lemma StepApplies(gens: Table<Generator>, defaults: Generator, plan: seq<Retrofit>, removeOld: bool)
    requires Retrofittable(gens, plan) && plan != []
    ensures var t0 := RetrofitGenerators(gens, defaults, plan[..|plan| - 1], removeOld);
            var r := plan[|plan| - 1];
            && t0.Valid() && r.genId in t0.rows && TurbineName(r.genId) !in t0.rows
            && RetrofitOneEffect'(t0, defaults, r, removeOld)
    decreases |plan|, 0
  {
    var init, r := plan[..|plan| - 1], plan[|plan| - 1];
    RetrofittablePrefix(gens, plan);
    RetrofitKeepsValid(gens, defaults, init, removeOld);
    RetrofitKeeps(gens, defaults, init, removeOld, r.genId);
    forall x | x in init ensures TurbineName(x.genId) != TurbineName(r.genId) {
      NamesInjective(x.genId, r.genId);
    }
    TurbineNamesOfInit(gens, defaults, init, removeOld, TurbineName(r.genId));
    var t0 := RetrofitGenerators(gens, defaults, init, removeOld);
    RetrofitOneEffect(t0, defaults, r, removeOld);
  }

  /** Every entry's turbine is in the table with its row. */
  lemma {:induction false} RetrofitAddsTurbine(gens: Table<Generator>, defaults: Generator, plan: seq<Retrofit>, removeOld: bool, r: Retrofit)
    requires Retrofittable(gens, plan) && r in plan
    ensures var t := RetrofitGenerators(gens, defaults, plan, removeOld);
            TurbineName(r.genId) in t.rows && t.rows[TurbineName(r.genId)] == Turbine(defaults, r)
  {
    var init, last := plan[..|plan| - 1], plan[|plan| - 1];
    RetrofittablePrefix(gens, plan);
    StepApplies(gens, defaults, plan, removeOld);
    if r != last {
      RetrofitAddsTurbine(gens, defaults, init, removeOld, r);
      NamesInjective(r.genId, last.genId);
      assert TurbineName(r.genId) != last.genId;
    }
  }

  /** With `removeOld` every retrofitted generator is gone and the table keeps its size; without, it grows by one turbine per entry. */
  lemma {:induction false} RetrofitRemovesOriginals(gens: Table<Generator>, defaults: Generator, plan: seq<Retrofit>, removeOld: bool)
    requires Retrofittable(gens, plan)
    ensures var t := RetrofitGenerators(gens, defaults, plan, removeOld);
            && (removeOld ==> (forall r :: r in plan ==> r.genId !in t.rows) && |t.rows| == |gens.rows|)
            && (!removeOld ==> |t.rows| == |gens.rows| + |plan|)
  {
    if plan != [] {
      var init, r := plan[..|plan| - 1], plan[|plan| - 1];
      RetrofittablePrefix(gens, plan);
      RetrofitRemovesOriginals(gens, defaults, init, removeOld);
      StepApplies(gens, defaults, plan, removeOld);
      forall x | x in init ensures x.genId != TurbineName(r.genId) {
        assert x.genId in gens.rows;
      }
    }
  }

  /**
   * What the retrofit does to the generators table: every entry's turbine
   * is added with its row; with `removeOld` every retrofitted generator is
   * gone and the table keeps its size, without it every generator is kept
   * as it was and the table grows by one turbine per entry; generators
   * nobody retrofits are kept either way; and the table stays well formed.
   */
  lemma RetrofitGeneratorsEffect(gens: Table<Generator>, defaults: Generator, plan: seq<Retrofit>, removeOld: bool)
    requires gens.Valid() && DistinctIds(plan) && Applicable(gens.rows, plan)
    ensures var t := RetrofitGenerators(gens, defaults, plan, removeOld);
            && t.Valid()
            && (forall r :: r in plan ==> TurbineName(r.genId) in t.rows && t.rows[TurbineName(r.genId)] == Turbine(defaults, r))
            && (forall k :: k in gens.rows && (!removeOld || Untouched(plan, k)) ==> k in t.rows && t.rows[k] == gens.rows[k])
            && (removeOld ==> (forall r :: r in plan ==> r.genId !in t.rows) && |t.rows| == |gens.rows|)
            && (!removeOld ==> |t.rows| == |gens.rows| + |plan|)
  {
    assert Retrofittable(gens, plan);
    RetrofitKeepsValid(gens, defaults, plan, removeOld);
    forall k | k in gens.rows && (!removeOld || Untouched(plan, k))
      ensures var t := RetrofitGenerators(gens, defaults, plan, removeOld); k in t.rows && t.rows[k] == gens.rows[k]
    {
      RetrofitKeeps(gens, defaults, plan, removeOld, k);
    }
    forall r | r in plan
      ensures var t := RetrofitGenerators(gens, defaults, plan, removeOld);
              TurbineName(r.genId) in t.rows && t.rows[TurbineName(r.genId)] == Turbine(defaults, r)
    {
      RetrofitAddsTurbine(gens, defaults, plan, removeOld, r);
    }
    RetrofitRemovesOriginals(gens, defaults, plan, removeOld);
  }

  /** The only names `RetrofitGenerators` adds are the turbines of its entries. */
  lemma {:induction false} TurbineNamesOfInit(gens: Table<Generator>, defaults: Generator, plan: seq<Retrofit>, removeOld: bool, name: string)
    requires name !in gens.rows && forall r :: r in plan ==> TurbineName(r.genId) != name
    ensures name !in RetrofitGenerators(gens, defaults, plan, removeOld).rows
  {
    if plan != [] {
      var init := plan[..|plan| - 1];
      assert forall x :: x in init ==> x in plan;
      TurbineNamesOfInit(gens, defaults, init, removeOld, name);
    }
  }
}
