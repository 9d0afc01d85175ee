/**
 * Rows of the grid model's component tables, restricted to the attributes the
 * scripts read or write. Names are the tables' keys and are not repeated in
 * the rows.
 */
module Components {
  import opened Tables

  /**
   * A cell of a numeric column: a number, or a cell holding none (a missing
   * value, a `None`, or text that arithmetic on it rejects).
   */
  datatype Cell = Num(value: real) | Blank

  /** A row of the generators table. */
  datatype Generator = Generator(
    bus: string,
    carrier: string,
    pNom: Cell,               // Blank: no p_nom is read (the table has no p_nom column)
    pNomExtendable: bool,
    efficiency: real,
    marginalCost: real,
    capitalCost: real)

  /** A row of the storage_units table. */
  datatype StorageUnit = StorageUnit(
    bus: string,
    carrier: string,
    pNom: Cell,               // Blank: no p_nom value (the retrofit passes None)
    pNomExtendable: bool,
    pMinPu: real,
    maxHours: real,
    eNom: real,
    efficiencyStore: real,
    efficiencyDispatch: real,
    standingLoss: real,
    cyclicStateOfCharge: bool,
    capitalCost: real,
    inflow: Cell)             // static inflow; Blank: not a number, so scaling it raises

  /** A row of the links table. */
  datatype Link = Link(
    bus0: string,
    bus1: string,
    pNom: real,
    pNomExtendable: bool,
    efficiency: real,
    capitalCost: real)

  /** A row of the global_constraints table. */
  datatype GlobalConstraint = GlobalConstraint(
    carrierAttribute: string,
    sense: string,
    constant: real)

  /**
   * A hydro generator: carrier exactly "hydro", letter case included (the
   * mask of `scale_hydro_and_phs` and the filter of the retrofit).
   */
  predicate IsHydroGenerator(g: Generator)
  {
    g.carrier == "hydro"
  }
}
