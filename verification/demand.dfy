/**
 * The load rescaler: every load is keyed by the country code at the end of
 * its bus name, each country's demand is summed over its loads and over all
 * snapshots, and every load of a country with a target is multiplied by one
 * factor, target over current total, so that the country's total becomes
 * its target.
 */
module Demand {
  import opened Tables
  import opened Text
  import opened Series

  /** TWh per Gtoe. */
  const GtoeToTwh: real := 11.630
  /** MWh per TWh: the load series are in MWh, the targets in TWh. */
  const MwhPerTwh: real := 1000000.0

  /** The yearly electricity consumption targets per country key, in Gtoe. */
  const GtoeElectricity: map<string, real> := map[
    "AT0 0" := 11.975, "BE0 0" := 15.118, "BG0 0" := 5.364, "CZ0 0" := 12.211,
    "DE0 0" := 89.121, "DK0 0" := 0.57 * 5.929, "DK6 0" := 0.43 * 5.929,
    "EE5 0" := 1.516, "ES0 0" := 0.98 * 39.8473, "ES3 0" := 0.02 * 39.8473,
    "FI6 0" := 8.476, "FR0 0" := 70.668, "GB4 0" := 0.98 * 51.032,
    "GB2 0" := 0.02 * 51.032, "GR0 0" := 8.002, "HR0 0" := 3.054,
    "HU0 0" := 8.583, "IE2 0" := 4.972, "IT0 0" := 0.96 * 49.571,
    "IT1 0" := 0.04 * 49.571, "LT5 0" := 1.512, "LU0 0" := 1.180,
    "LV5 0" := 2.320, "NL0 0" := 19.456, "PL0 0" := 35.345, "PT0 0" := 7.941,
    "RO0 0" := 11.551, "SE6 0" := 14.514, "SI0 0" := 2.510, "SK0 0" := 4.362]

  /** The country key of a bus: the part of its name after the last '_'. */
  function Country(bus: string): string
  {
    LastToken(bus, '_')
  }

  /**
   * The country key of a bus named `<prefix>_<code>` is `code` when `code`
   * has no '_'; a bus name without '_' is its own key.
   */
  lemma CountryOfBus(prefix: string, code: string)
    requires '_' !in code
    ensures Country(prefix + "_" + code) == code
    ensures Country(code) == code
  {
    LastTokenAfterLastSeparator(prefix, code, '_');
  }

  /** A country's target in MWh: `gtoe * 11.630` TWh. */
  function TargetMwh(gtoe: map<string, real>, c: string): real
    requires c in gtoe
  {
    gtoe[c] * GtoeToTwh * MwhPerTwh
  }

  /** `l` is a load of country `c` that has a demand series. */
  predicate CountsFor(buses: map<string, string>, demand: map<string, seq<real>>, c: string, l: string)
  {
    l in buses && l in demand && Country(buses[l]) == c
  }

  /** What load `l` adds to the total of country `c`: its whole series if it counts for `c`, else nothing. */
  function Contribution(buses: map<string, string>, demand: map<string, seq<real>>, c: string, l: string): real
  {
    if CountsFor(buses, demand, c, l) then Total(demand[l]) else 0.0
  }

  /** The contributions of the loads of `index` to country `c`, in index order. */
  function Shares(index: seq<string>, buses: map<string, string>, demand: map<string, seq<real>>, c: string): (r: seq<real>)
    ensures |r| == |index|
    ensures forall i :: 0 <= i < |index| ==> r[i] == Contribution(buses, demand, c, index[i])
  {
    seq(|index|, i requires 0 <= i < |index| => Contribution(buses, demand, c, index[i]))
  }

  /**
   * The demand of country `c` summed over the loads of `index` that have a
   * demand series, and over all snapshots (MWh). Loads without a series are
   * not in the sum.
   */
  function CountryDemand(index: seq<string>, buses: map<string, string>, demand: map<string, seq<real>>, c: string): real
  {
    Total(Shares(index, buses, demand, c))
  }

  /**
   * The country total is accumulated load by load: the next load adds its
   * whole series when it is a load of `c` with a series, and nothing
   * otherwise.
   */
  lemma CountryDemandStep(index: seq<string>, buses: map<string, string>, demand: map<string, seq<real>>, c: string, l: string)
    ensures CountryDemand([], buses, demand, c) == 0.0
    ensures CountryDemand(index + [l], buses, demand, c)
              == CountryDemand(index, buses, demand, c) + (if CountsFor(buses, demand, c, l) then Total(demand[l]) else 0.0)
  {
    var s := Shares(index + [l], buses, demand, c);
    assert s[..|index|] == Shares(index, buses, demand, c);
  }

  /** Some load of `c` in `index` has a demand series, so `c` has a current total. */
  predicate HasDemand(index: seq<string>, buses: map<string, string>, demand: map<string, seq<real>>, c: string)
  {
    index != [] && (CountsFor(buses, demand, c, index[|index| - 1]) || HasDemand(index[..|index| - 1], buses, demand, c))
  }

  /** `HasDemand` holds exactly when some load of `index` counts for `c`. */
  lemma {:induction false} HasDemandWitness(index: seq<string>, buses: map<string, string>, demand: map<string, seq<real>>, c: string)
    ensures HasDemand(index, buses, demand, c) <==> exists l :: l in index && CountsFor(buses, demand, c, l)
  {
    if index != [] {
      var init, last := index[..|index| - 1], index[|index| - 1];
      HasDemandWitness(init, buses, demand, c);
      assert forall l :: l in index <==> l in init || l == last;
    }
  }

  /** A country without any load with a series sums to zero. */
  lemma NoDemandSumsToZero(index: seq<string>, buses: map<string, string>, demand: map<string, seq<real>>, c: string)
    requires !HasDemand(index, buses, demand, c)
    ensures CountryDemand(index, buses, demand, c) == 0.0
  {
    HasDemandWitness(index, buses, demand, c);
    var s := Shares(index, buses, demand, c);
    forall i | 0 <= i < |s| ensures s[i] == 0.0 {
      assert index[i] in index;
    }
    TotalOfZeros(s);
  }

  /** `t / (d / m) * d == t * m` for non-zero `d` and `m`. */
  lemma FactorTimesTotal(t: real, d: real, m: real)
    requires d != 0.0 && m != 0.0
    ensures t / (d / m) * d == t * m
  {
    var q := d / m;
    assert q * m == d;
    var f := t / q;
    assert f * q == t;
    var fd := f * d;
    assert fd == f * (q * m);
    assert f * (q * m) == (f * q) * m;
  }

  /**
   * One country's factor, the target in TWh over the current total in TWh:
   * it turns the current total (MWh) into the target (MWh).
   */
  function ScalingFactor(targetTwh: real, totalMwh: real): (f: real)
    requires totalMwh != 0.0
    ensures f * totalMwh == targetTwh * MwhPerTwh
  {
    FactorTimesTotal(targetTwh, totalMwh, MwhPerTwh);
    targetTwh / (totalMwh / MwhPerTwh)
  }

  /**
   * The factors `rescale_loads` computes: one for every country with a
   * target and a current total, none for the others (whose quotient is
   * undefined and dropped). Each factor turns the country's current total
   * into its target.
   */
  function ScalingFactors(loads: Table<string>, demand: map<string, seq<real>>, gtoe: map<string, real>): (f: map<string, real>)
    requires forall c :: c in gtoe && HasDemand(loads.index, loads.rows, demand, c) ==>
               CountryDemand(loads.index, loads.rows, demand, c) != 0.0
    ensures forall c :: c in f <==> c in gtoe && HasDemand(loads.index, loads.rows, demand, c)
    ensures forall c :: c in f ==> f[c] * CountryDemand(loads.index, loads.rows, demand, c) == TargetMwh(gtoe, c)
  {
    map c | c in gtoe && HasDemand(loads.index, loads.rows, demand, c) ::
      ScalingFactor(gtoe[c] * GtoeToTwh, CountryDemand(loads.index, loads.rows, demand, c))
  }

  /** Whether the loop scales load `l`: it is a load and its country has a factor. */
  predicate Scaled(buses: map<string, string>, factors: map<string, real>, l: string)
  {
    l in buses && Country(buses[l]) in factors
  }

  /**
   * The demand series after the loads named in `done` have been visited:
   * each of them whose country has a factor is multiplied by that factor,
   * every other series is kept, and no series is added or dropped.
   */
  function RescaledAmong(done: set<string>, buses: map<string, string>, demand: map<string, seq<real>>, factors: map<string, real>): (r: map<string, seq<real>>)
    ensures r.Keys == demand.Keys
    ensures forall l :: l in demand && l in done && Scaled(buses, factors, l) ==>
              r[l] == Scale(demand[l], factors[Country(buses[l])])
    ensures forall l :: l in demand && (l !in done || !Scaled(buses, factors, l)) ==> r[l] == demand[l]
  {
    map l | l in demand ::
      if l in done && Scaled(buses, factors, l) then Scale(demand[l], factors[Country(buses[l])]) else demand[l]
  }

  /** Visiting one more load scales its series when its country has a factor. */
  lemma RescaledStep(done: set<string>, buses: map<string, string>, demand: map<string, seq<real>>, factors: map<string, real>, l: string)
    requires l !in done && (Scaled(buses, factors, l) ==> l in demand)
    ensures RescaledAmong(done + {l}, buses, demand, factors)
              == if Scaled(buses, factors, l) then RescaledAmong(done, buses, demand, factors)[l := Scale(demand[l], factors[Country(buses[l])])]
                 else RescaledAmong(done, buses, demand, factors)
  {
  }

  /** The demand series after `rescale_loads` has visited every load. */
  function Rescaled(loads: Table<string>, demand: map<string, seq<real>>, factors: map<string, real>): map<string, seq<real>>
  {
    RescaledAmong(loads.rows.Keys, loads.rows, demand, factors)
  }

  /** Every load the loop scales has a demand series (else `p_set[load]` raises KeyError). */
  predicate ScaledLoadsHaveDemand(loads: Table<string>, demand: map<string, seq<real>>, factors: map<string, real>)
  {
    forall l :: l in loads.rows && Country(loads.rows[l]) in factors ==> l in demand
  }

  /**
   * `after` holds, for every load of country `c`, its series in `demand`
   * multiplied by `f`, and no series for a load of `c` without one.
   */
  predicate ScalesCountry(buses: map<string, string>, demand: map<string, seq<real>>, after: map<string, seq<real>>, c: string, f: real)
  {
    forall l :: l in buses && Country(buses[l]) == c ==>
      (l in after <==> l in demand) && (l in demand ==> after[l] == Scale(demand[l], f))
  }

  /**
   * When every series of country `c` is multiplied by `f` (and the other
   * countries' series are whatever they are), the country's total is
   * multiplied by `f`.
   */
  lemma CountryDemandScales(index: seq<string>, buses: map<string, string>, demand: map<string, seq<real>>, after: map<string, seq<real>>, c: string, f: real)
    requires ScalesCountry(buses, demand, after, c, f)
    ensures CountryDemand(index, buses, after, c) == f * CountryDemand(index, buses, demand, c)
  {
    SharesScale(index, buses, demand, after, c, f);
    TotalScale(Shares(index, buses, demand, c), f);
  }

  /** The shares of country `c` after its series are multiplied by `f`. */
  lemma SharesScale(index: seq<string>, buses: map<string, string>, demand: map<string, seq<real>>, after: map<string, seq<real>>, c: string, f: real)
    requires ScalesCountry(buses, demand, after, c, f)
    ensures Shares(index, buses, after, c) == Scale(Shares(index, buses, demand, c), f)
  {
    var s, s' := Shares(index, buses, demand, c), Shares(index, buses, after, c);
    forall i | 0 <= i < |index| ensures s'[i] == Scale(s, f)[i] {
      ContributionScales(buses, demand, after, c, f, index[i]);
    }
  }

  /** One load's share of `CountryDemandScales`. */
  lemma ContributionScales(buses: map<string, string>, demand: map<string, seq<real>>, after: map<string, seq<real>>, c: string, f: real, l: string)
    requires ScalesCountry(buses, demand, after, c, f)
    ensures Contribution(buses, after, c, l) == f * Contribution(buses, demand, c, l)
  {
    if CountsFor(buses, demand, c, l) {
      TotalScale(demand[l], f);
    }
  }

  /**
   * After rescaling, a country with a factor has its total multiplied by
   * that factor, and a country without one keeps its total.
   */
  lemma CountryDemandAfterRescale(loads: Table<string>, demand: map<string, seq<real>>, factors: map<string, real>, c: string)
    ensures c in factors ==>
              CountryDemand(loads.index, loads.rows, Rescaled(loads, demand, factors), c)
                == factors[c] * CountryDemand(loads.index, loads.rows, demand, c)
    ensures c !in factors ==>
              CountryDemand(loads.index, loads.rows, Rescaled(loads, demand, factors), c)
                == CountryDemand(loads.index, loads.rows, demand, c)
  {
    var after := Rescaled(loads, demand, factors);
    var f := if c in factors then factors[c] else 1.0;
    assert ScalesCountry(loads.rows, demand, after, c, f) by {
      forall l | l in loads.rows && Country(loads.rows[l]) == c && l in demand
        ensures after[l] == Scale(demand[l], f)
      {
        if c !in factors {
          ScaleByOne(demand[l]);
        }
      }
    }
    CountryDemandScales(loads.index, loads.rows, demand, after, c, f);
  }

  /**
   * The point of `rescale_loads`: afterwards every country with a target and
   * a current total has exactly its target as total demand, and every other
   * country keeps its total.
   */
  lemma RescaleMeetsTarget(loads: Table<string>, demand: map<string, seq<real>>, gtoe: map<string, real>, c: string)
    requires forall c :: c in gtoe && HasDemand(loads.index, loads.rows, demand, c) ==>
               CountryDemand(loads.index, loads.rows, demand, c) != 0.0
    ensures c in gtoe && HasDemand(loads.index, loads.rows, demand, c) ==>
              CountryDemand(loads.index, loads.rows, Rescaled(loads, demand, ScalingFactors(loads, demand, gtoe)), c)
                == TargetMwh(gtoe, c)
    ensures !(c in gtoe && HasDemand(loads.index, loads.rows, demand, c)) ==>
              CountryDemand(loads.index, loads.rows, Rescaled(loads, demand, ScalingFactors(loads, demand, gtoe)), c)
                == CountryDemand(loads.index, loads.rows, demand, c)
  {
    var factors := ScalingFactors(loads, demand, gtoe);
    CountryDemandAfterRescale(loads, demand, factors, c);
    if c in factors {
      var f, d := factors[c], CountryDemand(loads.index, loads.rows, demand, c);
      assert f * d == TargetMwh(gtoe, c);
    }
  }

  /**
   * `after` holds the demand that `rescale_loads` aims at: every country with
   * a target and a total in `before` totals its target, every other country
   * keeps its total.
   */
  ghost predicate MeetsTargets(loads: Table<string>, before: map<string, seq<real>>, after: map<string, seq<real>>, gtoe: map<string, real>)
  {
    forall c :: CountryDemand(loads.index, loads.rows, after, c)
                  == if c in gtoe && HasDemand(loads.index, loads.rows, before, c) then TargetMwh(gtoe, c)
                     else CountryDemand(loads.index, loads.rows, before, c)
  }

  /** `RescaleMeetsTarget` for all countries at once. */
  lemma RescaleMeetsTargets(loads: Table<string>, demand: map<string, seq<real>>, gtoe: map<string, real>)
    requires forall c :: c in gtoe && HasDemand(loads.index, loads.rows, demand, c) ==>
               CountryDemand(loads.index, loads.rows, demand, c) != 0.0
    ensures MeetsTargets(loads, demand, Rescaled(loads, demand, ScalingFactors(loads, demand, gtoe)), gtoe)
  {
    forall c {
      RescaleMeetsTarget(loads, demand, gtoe, c);
    }
  }
}
