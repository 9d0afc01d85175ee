/**
 * The battery injector: one extendable battery storage unit per bus, with
 * fixed technology parameters and one annualised capital cost shared by all.
 */
module Battery {
  import opened Components
  import Finance

  /** Hours of storage at full power. */
  const MaxHours: real := 8.0
  /** Charging and discharging efficiency. */
  const RoundTripLeg: real := 0.92
  /** Technology lifetime in years and discount rate of the annuity. */
  const Lifetime: int := 16
  const DiscountRate: real := 0.05
  /** Overnight cost per MW of power (with a 2.1 % surcharge) and per MWh of energy. */
  const PowerCost: real := 81000.0
  const PowerSurcharge: real := 0.021
  const EnergyCost: real := 236000.0
  /** What is appended to the bus name to name its battery. */
  const Suffix: string := " battery"

  /**
   * The yearly capital cost per MW of battery:
   * `annuity(16, 0.05) * 81e3 * (1 + 0.021) + max_hours * annuity(16, 0.05) * 236e3`.
   * With a positive discount rate it exceeds straight-line depreciation of
   * the same investment over the lifetime.
   */
  function CapitalCost(): (c: real)
    ensures c > (PowerCost * (1.0 + PowerSurcharge) + MaxHours * EnergyCost) / (Lifetime as real)
  {
    var a := Finance.Annuity(Lifetime, DiscountRate);
    Finance.AnnuityAboveStraightLine(Lifetime, DiscountRate);
    a * PowerCost * (1.0 + PowerSurcharge) + MaxHours * a * EnergyCost
  }

  /** The name of the battery added at `bus`: `f"{bus} battery"`. */
  function BatteryName(bus: string): string
  {
    bus + Suffix
  }

  /** The bus a battery name was built from. */
  function BusOf(name: string): string
  {
    if |name| >= |Suffix| then name[..|name| - |Suffix|] else name
  }

  /** Distinct buses give distinct battery names. */
  lemma BatteryNameInjective(a: string, b: string)
    requires BatteryName(a) == BatteryName(b)
    ensures a == b
  {
    assert a == BatteryName(a)[..|a|];
    assert b == BatteryName(b)[..|b|];
  }

  /** The row added for `bus`: the library's default row with the attributes the call passes. */
  function BatteryUnit(defaults: StorageUnit, bus: string, cost: real): StorageUnit
  {
    defaults.(bus := bus, carrier := "batteries", pNomExtendable := true,
              maxHours := MaxHours, efficiencyStore := RoundTripLeg,
              efficiencyDispatch := RoundTripLeg, capitalCost := cost,
              cyclicStateOfCharge := true)
  }

  /**
   * The rows `add_battery_storage` adds: one per bus, under the bus's battery
   * name, attached to that bus, with the fixed parameters and the shared
   * capital cost.
   */
  function Batteries(defaults: StorageUnit, buses: set<string>): (m: map<string, StorageUnit>)
    ensures m.Keys == set b | b in buses :: BatteryName(b)
    ensures forall b :: b in buses ==> m[BatteryName(b)] == BatteryUnit(defaults, b, CapitalCost())
    ensures forall k :: k in m ==>
              && BatteryName(m[k].bus) == k && m[k].bus in buses
              && m[k].carrier == "batteries" && m[k].pNomExtendable
              && m[k].maxHours == 8.0 && m[k].cyclicStateOfCharge
              && m[k].efficiencyStore == 0.92 && m[k].efficiencyDispatch == 0.92
              && m[k].capitalCost == CapitalCost()
  {
    var names := set b | b in buses :: BatteryName(b);
    assert forall b :: b in buses ==> BusOf(BatteryName(b)) == b by {
      forall b | b in buses ensures BusOf(BatteryName(b)) == b {
        assert BatteryName(b)[..|b|] == b;
      }
    }
    map k | k in names :: BatteryUnit(defaults, BusOf(k), CapitalCost())
  }

  /** The names of a set of buses' batteries are as many as the buses. */
  lemma {:induction false} BatteryNamesCount(buses: set<string>)
    ensures |set b | b in buses :: BatteryName(b)| == |buses|
    decreases |buses|
  {
    if buses != {} {
      var x :| x in buses;
      var rest := buses - {x};
      BatteryNamesCount(rest);
      var names := set b | b in buses :: BatteryName(b);
      var restNames := set b | b in rest :: BatteryName(b);
      assert names == restNames + {BatteryName(x)};
      assert BatteryName(x) !in restNames by {
        if BatteryName(x) in restNames {
          var y :| y in rest && BatteryName(y) == BatteryName(x);
          BatteryNameInjective(x, y);
        }
      }
    }
  }

  /**
   * Adding the batteries of `buses` to a storage table that holds none of
   * their names grows it by exactly the number of buses and leaves every
   * existing row as it was.
   */
  lemma BatteryInjectionGrowsTable(units: map<string, StorageUnit>, defaults: StorageUnit, buses: set<string>)
    requires forall b :: b in buses ==> BatteryName(b) !in units
    ensures |units + Batteries(defaults, buses)| == |units| + |buses|
    ensures forall k :: k in units ==> k in units + Batteries(defaults, buses) && (units + Batteries(defaults, buses))[k] == units[k]
  {
    var m := Batteries(defaults, buses);
    BatteryNamesCount(buses);
    assert units.Keys !! m.Keys;
    assert (units + m).Keys == units.Keys + m.Keys;
  }

  /** Adding one more bus's battery extends the batteries of the others. */
  lemma BatteriesStep(defaults: StorageUnit, done: set<string>, bus: string)
    ensures Batteries(defaults, done + {bus}) == Batteries(defaults, done)[BatteryName(bus) := BatteryUnit(defaults, bus, CapitalCost())]
  {
    var l, r := Batteries(defaults, done + {bus}), Batteries(defaults, done)[BatteryName(bus) := BatteryUnit(defaults, bus, CapitalCost())];
    assert (set b | b in done + {bus} :: BatteryName(b)) == (set b | b in done :: BatteryName(b)) + {BatteryName(bus)};
    assert l.Keys == r.Keys;
  }
}
