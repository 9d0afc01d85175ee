/**
 * The constraint setter: one global cap on CO2 emissions, a fraction of the
 * network's baseline emissions.
 */
module Emissions {
  import opened Components

  /** The network's baseline yearly emissions (t CO2). */
  const BaseCo2Emissions: real := 1012028560.7495946
  /** The key of the cap in the global_constraints table. */
  const Co2LimitName: string := "CO2Limit"

  /**
   * The constraint `add_co2_limit(network, co2_limit)` adds: emissions summed
   * over carriers, bounded from above by `co2_limit` times the baseline. The
   * bound, as a fraction of the baseline, gives back `co2_limit`; a zero
   * fraction (full decarbonisation) is a zero bound and only it.
   */
  function Co2Constraint(co2Limit: real): (g: GlobalConstraint)
    ensures g.carrierAttribute == "co2_emissions" && g.sense == "<="
    ensures g.constant / BaseCo2Emissions == co2Limit
    ensures g.constant == 0.0 <==> co2Limit == 0.0
    ensures 0.0 <= co2Limit <= 1.0 ==> 0.0 <= g.constant <= BaseCo2Emissions
  {
    GlobalConstraint("co2_emissions", "<=", co2Limit * BaseCo2Emissions)
  }
}
