/**
 * The grid model the scripts edit before handing it to the solver, and the
 * edits themselves. Each edit changes the model in place; its contract ties
 * the new contents to the specification functions of the other modules.
 */
module Scenario {
  import opened Tables
  import opened Components
  import opened Series
  import Battery
  import Emissions
  import Demand
  import HydroEdits
  import Retrofit

  /** Everything an edit may change, as one value. */
  datatype Grid = Grid(
    buses: set<string>,
    generators: Table<Generator>,
    storageUnits: map<string, StorageUnit>,
    links: map<string, Link>,
    loads: Table<string>,
    loadDemand: map<string, seq<real>>,
    storageInflow: map<string, seq<real>>,
    globalConstraints: map<string, GlobalConstraint>)

  /**
   * A grid model: the component tables by name, the loads' demand series
   * and the storage units' inflow series by component name. Which optional
   * columns the tables have, and the row the library fills in for the
   * attributes an `add` call does not pass, are fixed for the model.
   */
  class Network {
    var buses: set<string>
    var generators: Table<Generator>
    var storageUnits: map<string, StorageUnit>
    var links: map<string, Link>
    var loads: Table<string>                    // load name -> bus
    var loadDemand: map<string, seq<real>>      // load name -> demand per snapshot (MWh)
    var storageInflow: map<string, seq<real>>   // storage unit name -> inflow per snapshot
    var globalConstraints: map<string, GlobalConstraint>

    /** Whether the generators table has a carrier column. */
    const generatorCarrierColumn: bool
    /** Whether the storage units table has a static inflow column. */
    const storageInflowColumn: bool
    /** The rows `add` starts from. */
    const generatorDefaults: Generator
    const storageDefaults: StorageUnit
    const linkDefaults: Link

    /** The ordered tables list each row exactly once. */
    ghost predicate Valid()
      reads this`generators, this`loads
    {
      generators.Valid() && loads.Valid()
    }

    /** The current contents. */
    function Contents(): Grid
      reads this
    {
      Grid(buses, generators, storageUnits, links, loads, loadDemand, storageInflow, globalConstraints)
    }

    constructor (contents: Grid, generatorCarrierColumn: bool, storageInflowColumn: bool,
                 generatorDefaults: Generator, storageDefaults: StorageUnit, linkDefaults: Link)
      requires contents.generators.Valid() && contents.loads.Valid()
      ensures Valid() && Contents() == contents
      ensures this.generatorCarrierColumn == generatorCarrierColumn && this.storageInflowColumn == storageInflowColumn
      ensures this.generatorDefaults == generatorDefaults && this.storageDefaults == storageDefaults
      ensures this.linkDefaults == linkDefaults
    {
      buses := contents.buses;
      generators := contents.generators;
      storageUnits := contents.storageUnits;
      links := contents.links;
      loads := contents.loads;
      loadDemand := contents.loadDemand;
      storageInflow := contents.storageInflow;
      globalConstraints := contents.globalConstraints;
      this.generatorCarrierColumn := generatorCarrierColumn;
      this.storageInflowColumn := storageInflowColumn;
      this.generatorDefaults := generatorDefaults;
      this.storageDefaults := storageDefaults;
      this.linkDefaults := linkDefaults;
    }

    /**
     * `add_battery_storage`: one battery per bus is added to the storage
     * units, the capital cost computed once for all; the existing units
     * stay as they were (`BatteryInjectionGrowsTable`).
     */
    method AddBatteryStorage()
      requires forall b :: b in buses ==> Battery.BatteryName(b) !in storageUnits
      modifies this`storageUnits
      ensures storageUnits == old(storageUnits) + Battery.Batteries(storageDefaults, buses)
    {
      var cost := Battery.CapitalCost();
      var todo := buses;
      assert Battery.Batteries(storageDefaults, buses - todo) == map[] by {
        assert buses - todo == {};
      }
      while todo != {}
        invariant todo <= buses
        invariant storageUnits == old(storageUnits) + Battery.Batteries(storageDefaults, buses - todo)
        decreases |todo|
      {
        var bus :| bus in todo;
        BatteryLoopStep(old(storageUnits), storageDefaults, buses, todo, bus);
        storageUnits := storageUnits[Battery.BatteryName(bus) := Battery.BatteryUnit(storageDefaults, bus, cost)];
        todo := todo - {bus};
      }
      assert buses - todo == buses;
    }

    /** `add_co2_limit`: the one global constraint capping emissions at `co2Limit` times the baseline is added. */
    method AddCo2Limit(co2Limit: real)
      requires Emissions.Co2LimitName !in globalConstraints
      modifies this`globalConstraints
      ensures globalConstraints == old(globalConstraints)[Emissions.Co2LimitName := Emissions.Co2Constraint(co2Limit)]
    {
      globalConstraints := globalConstraints[Emissions.Co2LimitName := Emissions.Co2Constraint(co2Limit)];
    }

    /**
     * `rescale_loads`: the loads of every country with a target and a
     * current total are multiplied by the country's factor, in load order;
     * afterwards each such country's total is its target.
     */
    method RescaleLoads()
      requires Valid()
      requires forall c :: c in Demand.GtoeElectricity && Demand.HasDemand(loads.index, loads.rows, loadDemand, c) ==>
                 Demand.CountryDemand(loads.index, loads.rows, loadDemand, c) != 0.0
      requires Demand.ScaledLoadsHaveDemand(loads, loadDemand, Demand.ScalingFactors(loads, loadDemand, Demand.GtoeElectricity))
      modifies this`loadDemand
      ensures loadDemand == Demand.Rescaled(loads, old(loadDemand), Demand.ScalingFactors(loads, old(loadDemand), Demand.GtoeElectricity))
      ensures Demand.MeetsTargets(loads, old(loadDemand), loadDemand, Demand.GtoeElectricity)
    {
      var factors := Demand.ScalingFactors(loads, loadDemand, Demand.GtoeElectricity);
      var i := 0;
      RescaleLoopStarts(loads, loadDemand, factors);
      while i < |loads.index|
        invariant 0 <= i <= |loads.index|
        invariant loadDemand == Demand.RescaledAmong(Visited(loads.index, i), loads.rows, old(loadDemand), factors)
      {
        var load := loads.index[i];
        RescaleLoopStep(loads, old(loadDemand), factors, i, loadDemand);
        var country := Demand.Country(loads.rows[load]);
        if country in factors {
          loadDemand := loadDemand[load := Scale(loadDemand[load], factors[country])];
        }
        i := i + 1;
      }
      RescaleLoopDone(loads, old(loadDemand), loadDemand);
    }

    /** `convert_hydro_to_phs`: hydro storage units become pumped hydro. */
    method ConvertHydroToPhs()
      modifies this`storageUnits
      ensures storageUnits == HydroEdits.PhsConverted(old(storageUnits))
    {
      storageUnits := HydroEdits.PhsConverted(storageUnits);
    }

    /** `expand_transmission_capacity`: every link becomes extendable. */
    method ExpandTransmissionCapacity()
      modifies this`links
      ensures links == HydroEdits.TransmissionExpanded(old(links))
    {
      links := HydroEdits.TransmissionExpanded(links);
    }

    /**
     * `scale_hydro_inflow_all_countries`: every storage unit whose carrier
     * does not mention PHS has its inflow series and its static inflow
     * multiplied by `factor`, one unit at a time.
     */
    method ScaleHydroInflowAllCountries(factor: real)
      modifies this`storageInflow, this`storageUnits
      ensures storageInflow == HydroEdits.InflowSeriesScaled(old(storageUnits), old(storageInflow), factor)
      ensures storageUnits == HydroEdits.StaticInflowScaled(old(storageUnits), storageInflowColumn, factor)
    {
      var rows := storageUnits;  // the rows as the iteration sees them
      var todo := rows.Keys;
      InflowLoopEnds(storageUnits, storageInflow, storageInflowColumn, factor);
      while todo != {}
        invariant todo <= old(storageUnits).Keys
        invariant storageInflow == HydroEdits.InflowSeriesScaled(old(storageUnits) - todo, old(storageInflow), factor)
        invariant storageUnits == old(storageUnits) + HydroEdits.StaticInflowScaled(old(storageUnits) - todo, storageInflowColumn, factor)
        decreases |todo|
      {
        var name :| name in todo;
        var unit := rows[name];
        InflowLoopStep(old(storageUnits), old(storageInflow), factor, todo, name, unit, storageInflow);
        StaticInflowLoopStep(old(storageUnits), storageInflowColumn, factor, todo, name, unit, storageUnits);
        ScaleUnitInflow(name, unit, factor);
        todo := todo - {name};
      }
      InflowLoopEnds(old(storageUnits), old(storageInflow), storageInflowColumn, factor);
    }

    /** The body of the inflow loop for one unit, read from the rows as they were before the loop. */
    method ScaleUnitInflow(name: string, unit: StorageUnit, factor: real)
      modifies this`storageInflow, this`storageUnits
      ensures storageInflow == if !HydroEdits.SkipsInflow(unit) && name in old(storageInflow)
                               then old(storageInflow)[name := Scale(old(storageInflow)[name], factor)] else old(storageInflow)
      ensures storageUnits == if !HydroEdits.SkipsInflow(unit) && storageInflowColumn && unit.inflow.Num?
                              then old(storageUnits)[name := HydroEdits.WithInflowScaled(unit, factor)] else old(storageUnits)
    {
      if !HydroEdits.SkipsInflow(unit) {
        if name in storageInflow {
          storageInflow := storageInflow[name := Scale(storageInflow[name], factor)];
        }
        if storageInflowColumn && unit.inflow.Num? {
          storageUnits := storageUnits[name := HydroEdits.WithInflowScaled(unit, factor)];
        }
      }
    }

    /**
     * `scale_hydro_and_phs`: hydro generators and PHS storage units become
     * extendable. Reading the generators' carrier column fails when there is
     * none.
     */
    method ScaleHydroAndPhs()
      requires generatorCarrierColumn
      modifies this`generators, this`storageUnits
      ensures generators == HydroEdits.HydroGeneratorsExtendable(old(generators))
      ensures storageUnits == HydroEdits.PhsStorageExtendable(old(storageUnits))
      ensures Valid() == old(Valid())
    {
      generators := HydroEdits.HydroGeneratorsExtendable(generators);
      storageUnits := HydroEdits.PhsStorageExtendable(storageUnits);
    }

    /** The retrofit's entries for the current generators. */
    function RetrofitPlan(): seq<Retrofit.Retrofit>
      reads this`generators
      requires generators.Valid()
    {
      var hydro := Retrofit.IdentifyHydro(generators, generatorCarrierColumn);
      Retrofit.Plan(hydro.index, hydro.rows)
    }

    /**
     * `retrofit_hydro_to_phs`: without hydro generators nothing changes and
     * nothing is returned; otherwise each hydro generator with a positive
     * rating, in table order, gets a reservoir, a turbine and a pump link,
     * loses its original generator when `removeOld` holds, and is listed in
     * the result.
     */
    method RetrofitHydroToPhs(removeOld: bool) returns (created: Option<seq<Retrofit.Retrofit>>)
      requires Valid()
      requires forall r :: r in RetrofitPlan() ==>
                 && Retrofit.StoreName(r.genId) !in storageUnits
                 && Retrofit.TurbineName(r.genId) !in generators.rows
                 && Retrofit.PumpLinkName(r.genId) !in links
      modifies this`storageUnits, this`generators, this`links
      ensures var hydro := Retrofit.IdentifyHydro(old(generators), generatorCarrierColumn);
              var plan := Retrofit.Plan(hydro.index, hydro.rows);
              && created == (if hydro.index == [] then None else Some(plan))
              && storageUnits == old(storageUnits) + Retrofit.Reservoirs(storageDefaults, plan)
              && generators == Retrofit.RetrofitGenerators(old(generators), generatorDefaults, plan, removeOld)
              && links == old(links) + Retrofit.PumpLinks(linkDefaults, plan)
      ensures Valid()
    {
      var hydro := Retrofit.IdentifyHydro(generators, generatorCarrierColumn);
      if hydro.index == [] {
        NothingToRetrofit(storageUnits, generators, links, storageDefaults, generatorDefaults, linkDefaults, removeOld);
        return None;
      }
      var list := RetrofitEach(hydro, removeOld);
      created := Some(list);
      PlanRetrofittable(old(generators), hydro, list);
      Retrofit.RetrofitKeepsValid(old(generators), generatorDefaults, list, removeOld);
    }

    /** The loop of `retrofit_hydro_to_phs` over the hydro generators, in table order. */
    method RetrofitEach(hydro: Table<Generator>, removeOld: bool) returns (list: seq<Retrofit.Retrofit>)
      requires hydro.Valid()
      modifies this`storageUnits, this`generators, this`links
      ensures list == Retrofit.Plan(hydro.index, hydro.rows)
      ensures storageUnits == old(storageUnits) + Retrofit.Reservoirs(storageDefaults, list)
      ensures generators == Retrofit.RetrofitGenerators(old(generators), generatorDefaults, list, removeOld)
      ensures links == old(links) + Retrofit.PumpLinks(linkDefaults, list)
    {
      list := [];
      var i := 0;
      NothingToRetrofit(storageUnits, generators, links, storageDefaults, generatorDefaults, linkDefaults, removeOld);
      while i < |hydro.index|
        invariant 0 <= i <= |hydro.index|
        invariant list == Retrofit.Plan(hydro.index[..i], hydro.rows)
        invariant storageUnits == old(storageUnits) + Retrofit.Reservoirs(storageDefaults, list)
        invariant generators == Retrofit.RetrofitGenerators(old(generators), generatorDefaults, list, removeOld)
        invariant links == old(links) + Retrofit.PumpLinks(linkDefaults, list)
      {
        list := RetrofitVisit(hydro, i, list, old(storageUnits), old(generators), old(links), removeOld);
        i := i + 1;
      }
      assert hydro.index[..i] == hydro.index;
    }

    /**
     * One iteration of the retrofit loop: the generator at position `i` is
     * retrofitted when its rating is positive and skipped otherwise, and the
     * plan and the three tables move on by that generator.
     */
    method RetrofitVisit(hydro: Table<Generator>, i: nat, list: seq<Retrofit.Retrofit>,
                         ghost units: map<string, StorageUnit>, ghost gens: Table<Generator>, ghost oldLinks: map<string, Link>,
                         removeOld: bool) returns (next: seq<Retrofit.Retrofit>)
      requires hydro.Valid() && i < |hydro.index|
      requires list == Retrofit.Plan(hydro.index[..i], hydro.rows)
      requires storageUnits == units + Retrofit.Reservoirs(storageDefaults, list)
      requires generators == Retrofit.RetrofitGenerators(gens, generatorDefaults, list, removeOld)
      requires links == oldLinks + Retrofit.PumpLinks(linkDefaults, list)
      modifies this`storageUnits, this`generators, this`links
      ensures next == Retrofit.Plan(hydro.index[..i + 1], hydro.rows)
      ensures storageUnits == units + Retrofit.Reservoirs(storageDefaults, next)
      ensures generators == Retrofit.RetrofitGenerators(gens, generatorDefaults, next, removeOld)
      ensures links == oldLinks + Retrofit.PumpLinks(linkDefaults, next)
    {
      var gid := hydro.index[i];
      var gen := hydro.rows[gid];
      RetrofitLoopStep(hydro, i, list, units, gens, oldLinks,
                       storageDefaults, generatorDefaults, linkDefaults, removeOld);
      next := list;
      if Retrofit.RatingOrZero(gen) > 0.0 {
        var entry := RetrofitOneGenerator(gid, gen, removeOld);
        next := list + [entry];
      }
    }

    /**
     * The body of the retrofit loop for a generator with a positive rating:
     * its reservoir, turbine and pump link are added and, if asked, the
     * original removed; the entry describing them is returned.
     */
    method RetrofitOneGenerator(gid: string, gen: Generator, removeOld: bool) returns (entry: Retrofit.Retrofit)
      modifies this`storageUnits, this`generators, this`links
      ensures entry == Retrofit.Entry(gid, gen)
      ensures storageUnits == old(storageUnits)[entry.storage := Retrofit.Reservoir(storageDefaults, entry)]
      ensures generators == Retrofit.RetrofitOne(old(generators), generatorDefaults, entry, removeOld)
      ensures links == old(links)[entry.pumpLink := Retrofit.PumpLink(linkDefaults, entry)]
    {
      var rating := Retrofit.RatingOrZero(gen);
      var base := Retrofit.BaseName(gid);
      entry := Retrofit.Retrofit(gid, gen.bus, rating, base + "_store", base + "_turb", base + "_pump_link");
      storageUnits := storageUnits[entry.storage := Retrofit.Reservoir(storageDefaults, entry)];
      generators := generators.Insert(entry.turbine, Retrofit.Turbine(generatorDefaults, entry));
      links := links[entry.pumpLink := Retrofit.PumpLink(linkDefaults, entry)];
      if removeOld {
        generators := generators.Delete(gid);
      }
    }
  }

  /** With no entry, the retrofit adds and removes nothing. */
  lemma NothingToRetrofit(units: map<string, StorageUnit>, gens: Table<Generator>, links: map<string, Link>,
                          storageDefaults: StorageUnit, generatorDefaults: Generator, linkDefaults: Link, removeOld: bool)
    ensures units + Retrofit.Reservoirs(storageDefaults, []) == units
    ensures Retrofit.RetrofitGenerators(gens, generatorDefaults, [], removeOld) == gens
    ensures links + Retrofit.PumpLinks(linkDefaults, []) == links
  {
  }

  /** One step of the retrofit loop: the plan, and the three tables built from it, after one more generator. */
  lemma RetrofitLoopStep(hydro: Table<Generator>, i: nat, list: seq<Retrofit.Retrofit>,
                         units: map<string, StorageUnit>, gens: Table<Generator>, links: map<string, Link>,
                         storageDefaults: StorageUnit, generatorDefaults: Generator, linkDefaults: Link, removeOld: bool)
    requires hydro.Valid() && i < |hydro.index|
    requires list == Retrofit.Plan(hydro.index[..i], hydro.rows)
    ensures var gid := hydro.index[i];
            var gen := hydro.rows[gid];
            var next := Retrofit.Plan(hydro.index[..i + 1], hydro.rows);
            var entry := Retrofit.Entry(gid, gen);
            if Retrofit.RatingOrZero(gen) > 0.0 then
              && next == list + [entry]
              && (units + Retrofit.Reservoirs(storageDefaults, list))[entry.storage := Retrofit.Reservoir(storageDefaults, entry)]
                   == units + Retrofit.Reservoirs(storageDefaults, next)
              && Retrofit.RetrofitOne(Retrofit.RetrofitGenerators(gens, generatorDefaults, list, removeOld), generatorDefaults, entry, removeOld)
                   == Retrofit.RetrofitGenerators(gens, generatorDefaults, next, removeOld)
              && (links + Retrofit.PumpLinks(linkDefaults, list))[entry.pumpLink := Retrofit.PumpLink(linkDefaults, entry)]
                   == links + Retrofit.PumpLinks(linkDefaults, next)
            else
              next == list
  {
    var gid := hydro.index[i];
    var gen := hydro.rows[gid];
    var entry := Retrofit.Entry(gid, gen);
    assert hydro.index[..i + 1][..i] == hydro.index[..i];
    if Retrofit.RatingOrZero(gen) > 0.0 {
      var next := list + [entry];
      assert next[..|list|] == list;
      MergeUpdate(units, Retrofit.Reservoirs(storageDefaults, list), entry.storage, Retrofit.Reservoir(storageDefaults, entry));
      MergeUpdate(links, Retrofit.PumpLinks(linkDefaults, list), entry.pumpLink, Retrofit.PumpLink(linkDefaults, entry));
    }
  }

  /** The plan built from the hydro generators of `gens` can be applied to `gens`. */
  lemma PlanRetrofittable(gens: Table<Generator>, hydro: Table<Generator>, plan: seq<Retrofit.Retrofit>)
    requires gens.Valid() && hydro.Valid()
    requires forall k :: k in hydro.rows ==> k in gens.rows
    requires plan == Retrofit.Plan(hydro.index, hydro.rows)
    requires forall r :: r in plan ==> Retrofit.TurbineName(r.genId) !in gens.rows
    ensures Retrofit.Retrofittable(gens, plan)
  {
    Retrofit.PlanCoversConverted(hydro);
    var ids := Retrofit.GenIds(plan);
    assert Retrofit.DistinctIds(plan) by {
      forall i, j | 0 <= i < j < |plan| ensures plan[i].genId != plan[j].genId {
        assert ids[i] == plan[i].genId && ids[j] == plan[j].genId;
      }
    }
  }

  /** One step of the battery loop: adding the next bus's battery extends the batteries added so far. */
  lemma BatteryLoopStep(units: map<string, StorageUnit>, defaults: StorageUnit, buses: set<string>, todo: set<string>, bus: string)
    requires bus in todo && todo <= buses
    ensures (units + Battery.Batteries(defaults, buses - todo))[Battery.BatteryName(bus) := Battery.BatteryUnit(defaults, bus, Battery.CapitalCost())]
              == units + Battery.Batteries(defaults, buses - (todo - {bus}))
  {
    Battery.BatteriesStep(defaults, buses - todo, bus);
    assert (buses - todo) + {bus} == buses - (todo - {bus});
    MergeUpdate(units, Battery.Batteries(defaults, buses - todo), Battery.BatteryName(bus), Battery.BatteryUnit(defaults, bus, Battery.CapitalCost()));
  }

  /** The names among the first `i` entries of an index. */
  ghost function Visited(index: seq<string>, i: nat): set<string>
    requires i <= |index|
  {
    set l | l in index[..i]
  }

  /** Visiting the next entry adds it, and it was not visited yet when the index has no repeats. */
  lemma VisitedStep(index: seq<string>, i: nat)
    requires i < |index|
    ensures Visited(index, i + 1) == Visited(index, i) + {index[i]}
    ensures Distinct(index) ==> index[i] !in Visited(index, i)
  {
    assert index[..i + 1] == index[..i] + [index[i]];
  }

  /** Every entry has been visited at the end. */
  lemma VisitedAll(index: seq<string>)
    ensures Visited(index, |index|) == set l | l in index
  {
    assert index[..|index|] == index;
  }

  /** Before the rescaling loop no load has been visited and no series has changed. */
  lemma RescaleLoopStarts(loads: Table<string>, demand: map<string, seq<real>>, factors: map<string, real>)
    ensures demand == Demand.RescaledAmong(Visited(loads.index, 0), loads.rows, demand, factors)
  {
    assert Visited(loads.index, 0) == {};
  }

  /** After the rescaling loop every load has been visited, and the countries' totals meet their targets. */
  lemma RescaleLoopDone(loads: Table<string>, demand: map<string, seq<real>>, current: map<string, seq<real>>)
    requires loads.Valid()
    requires forall c :: c in Demand.GtoeElectricity && Demand.HasDemand(loads.index, loads.rows, demand, c) ==>
               Demand.CountryDemand(loads.index, loads.rows, demand, c) != 0.0
    requires current == Demand.RescaledAmong(Visited(loads.index, |loads.index|), loads.rows, demand,
                                             Demand.ScalingFactors(loads, demand, Demand.GtoeElectricity))
    ensures current == Demand.Rescaled(loads, demand, Demand.ScalingFactors(loads, demand, Demand.GtoeElectricity))
    ensures Demand.MeetsTargets(loads, demand, current, Demand.GtoeElectricity)
  {
    VisitedAll(loads.index);
    assert (set l | l in loads.index) == loads.rows.Keys;
    Demand.RescaleMeetsTargets(loads, demand, Demand.GtoeElectricity);
  }

  /** One step of the rescaling loop: scaling the next load's series gives the series after one more visit. */
  lemma RescaleLoopStep(loads: Table<string>, demand: map<string, seq<real>>, factors: map<string, real>, i: nat, current: map<string, seq<real>>)
    requires loads.Valid() && i < |loads.index|
    requires Demand.ScaledLoadsHaveDemand(loads, demand, factors)
    requires current == Demand.RescaledAmong(Visited(loads.index, i), loads.rows, demand, factors)
    ensures var load := loads.index[i];
            var country := Demand.Country(loads.rows[load]);
            && (country in factors ==> load in current)
            && (if country in factors then current[load := Scale(current[load], factors[country])] else current)
                 == Demand.RescaledAmong(Visited(loads.index, i + 1), loads.rows, demand, factors)
  {
    var load := loads.index[i];
    VisitedStep(loads.index, i);
    Demand.RescaledStep(Visited(loads.index, i), loads.rows, demand, factors, load);
  }

  /** The inflow loop's invariants at its start, where every unit is still to visit, and at its end, where none is. */
  lemma InflowLoopEnds(units: map<string, StorageUnit>, inflow: map<string, seq<real>>, hasColumn: bool, factor: real)
    ensures HydroEdits.InflowSeriesScaled(units - units.Keys, inflow, factor) == inflow
    ensures units + HydroEdits.StaticInflowScaled(units - units.Keys, hasColumn, factor) == units
    ensures HydroEdits.InflowSeriesScaled(units - {}, inflow, factor) == HydroEdits.InflowSeriesScaled(units, inflow, factor)
    ensures units + HydroEdits.StaticInflowScaled(units - {}, hasColumn, factor) == HydroEdits.StaticInflowScaled(units, hasColumn, factor)
  {
    assert units - units.Keys == map[];
    HydroEdits.InflowSeriesNone(inflow, factor);
    assert units - {} == units;
  }

  /** One step of the inflow loop: scaling the next unit gives the series and rows after one more visit. */
  lemma InflowLoopStep(units: map<string, StorageUnit>, inflow: map<string, seq<real>>, factor: real,
                       todo: set<string>, name: string, u: StorageUnit, series: map<string, seq<real>>)
    requires name in todo && todo <= units.Keys && u == units[name]
    requires series == HydroEdits.InflowSeriesScaled(units - todo, inflow, factor)
    ensures (if !HydroEdits.SkipsInflow(u) && name in series then series[name := Scale(series[name], factor)] else series)
              == HydroEdits.InflowSeriesScaled(units - (todo - {name}), inflow, factor)
  {
    var seen := units - todo;
    assert units - (todo - {name}) == seen[name := u];
    HydroEdits.InflowSeriesStep(seen, inflow, factor, name, u);
  }

  /** One step of the inflow loop, for the storage rows. */
  lemma StaticInflowLoopStep(units: map<string, StorageUnit>, hasColumn: bool, factor: real,
                             todo: set<string>, name: string, u: StorageUnit, rows: map<string, StorageUnit>)
    requires name in todo && todo <= units.Keys && u == units[name]
    requires rows == units + HydroEdits.StaticInflowScaled(units - todo, hasColumn, factor)
    ensures (if !HydroEdits.SkipsInflow(u) && hasColumn && u.inflow.Num? then rows[name := HydroEdits.WithInflowScaled(u, factor)] else rows)
              == units + HydroEdits.StaticInflowScaled(units - (todo - {name}), hasColumn, factor)
  {
    var seen := units - todo;
    assert units - (todo - {name}) == seen[name := u];
    var row := HydroEdits.StaticInflowScaledRow(u, hasColumn, factor);
    HydroEdits.StaticInflowStep(seen, hasColumn, factor, name, u);
    MergeUpdate(units, HydroEdits.StaticInflowScaled(seen, hasColumn, factor), name, row);
    if !(!HydroEdits.SkipsInflow(u) && hasColumn && u.inflow.Num?) {
      assert row == u;
      assert rows[name := u] == rows;
    }
  }

  /**
   * The scripts' edits on storage units commute with the battery injector:
   * converting hydro to PHS after adding the batteries gives the batteries
   * unchanged, since their carrier is not "hydro".
   */
  lemma ConversionSparesBatteries(units: map<string, StorageUnit>, defaults: StorageUnit, buses: set<string>)
    ensures HydroEdits.PhsConverted(units + Battery.Batteries(defaults, buses))
              == HydroEdits.PhsConverted(units) + Battery.Batteries(defaults, buses)
  {
    var b := Battery.Batteries(defaults, buses);
    var l, r := HydroEdits.PhsConverted(units + b), HydroEdits.PhsConverted(units) + b;
    assert l.Keys == r.Keys;
    forall k | k in l.Keys ensures l[k] == r[k] {
      if k in b {
        assert !HydroEdits.IsHydroStorage(b[k]);
      }
    }
  }
}
