# Grid-model edits of the PyPSA scenario scripts

The research scripts load a PyPSA grid model, edit its component tables in
memory, hand it to a solver and export the result. This project models the
in-memory edits and the annuity formula they use:

- `annuity(n, r)`, the yearly capital recovery factor (module `Finance`);
- `add_battery_storage`: one extendable battery per bus, with fixed
  parameters and one annualised capital cost (`Battery`);
- `add_co2_limit`: one global CO2 cap, a fraction of the baseline emissions
  (`Emissions`);
- `rescale_loads`: every load is keyed by the country code after the last
  `_` of its bus. A country's demand is summed over its loads and
  snapshots, and the loads of every country with a target are multiplied by
  target over total (`Demand`, `Text`, `Series`);
- `convert_hydro_to_phs`, `expand_transmission_capacity`,
  `scale_hydro_inflow_all_countries` and `scale_hydro_and_phs`: masked
  column updates on existing rows (`HydroEdits`);
- `identify_hydro_generators` and `retrofit_hydro_to_phs`. Each hydro
  generator with a positive rating gets a reservoir, a turbine and a pump
  link named after it, and the original is optionally removed (`Retrofit`).

`Scenario.Network` is the grid model as a class. It holds:

- the buses;
- the generators and the loads as ordered tables, since their row order
  shows in the retrofit's result and in the rescaling loop;
- the storage units, links and global constraints as maps from name to row;
- the loads' demand series and the storage units' inflow series.

Each script step is a method that changes the fields named in its
`modifies` clause, and only those. Its `ensures` ties the new contents to a
specification function of the other modules, and lemmas state what those
functions promise.

Three scripts define the same functions almost verbatim: annuity, battery
injector, CO2 cap and load rescaler in `code/Naime-1stBlock.py`,
`code/Naime-2ndBlock.py` and `code/pypsa_utilities.py`. One model serves
all three. The rows below cite the copies in turn. The copies compute the
same tables, but their text differs: `pypsa_utilities.py` computes the
battery cost once (line 40), while the Naime scripts compute it inside the
loop, and its `rescale_loads` (lines 111-151) is laid out more compactly
than the one in `Naime-1stBlock.py` (lines 102-175). The scripts call the library's `network.add` and `network.remove`:
`add` is modelled as insertion under a name not yet in the table, `remove`
as deletion.

Where the code and its comments disagree, the model follows the code.
`retrofit_hydro_to_phs` removes each original generator inside its loop,
although the comment calls the removal deferred. The loop runs over a copy
of the hydro rows, so every hydro generator is still visited.

## Model

| member | source | states |
|---|---|---|
| `Finance.Annuity` | code/Naime-1stBlock.py:13-17 | For `r > 0` the factor `a` satisfies `a * (1 - (1 + r) ** -n) == r`. For every `r <= 0`, negative rates included, `a * n == 1`. A positive lifetime at a positive rate gives a factor above the rate. |
| `Finance.AnnuityAboveStraightLine` | code/pypsa_utilities.py:9-16 | For `n > 0` and `r > 0`, `annuity(n, r)` exceeds `annuity(n, 0) == 1 / n`: interest makes capital dearer than straight-line depreciation. |
| `Battery.CapitalCost` | code/pypsa_utilities.py:40 | The shared battery cost `annuity(16, 0.05) * 81e3 * 1.021 + 8 * annuity(16, 0.05) * 236e3` exceeds the same investment spread evenly over the 16-year lifetime. |
| `Battery.Batteries` | code/Naime-1stBlock.py:31-44 | The rows added are keyed exactly by the names `"<bus> battery"` of the buses. Each row is attached to its own bus and has carrier "batteries", is extendable, has max_hours 8, efficiencies 0.92 and 0.92 and a cyclic state of charge, and carries the shared capital cost. |
| `Battery.BatteryNameInjective` | code/Naime-1stBlock.py:35 | Distinct buses get distinct battery names. |
| `Battery.BatteryNamesCount` | code/Naime-2ndBlock.py:34-36 | There are exactly as many battery names as buses. |
| `Battery.BatteryInjectionGrowsTable` | code/Naime-2ndBlock.py:32-45 | Adding the batteries to a storage table that holds none of their names grows it by the number of buses and leaves every existing unit as it was. |
| `Battery.BatteriesStep` | code/pypsa_utilities.py:42-52 | Adding the battery of one more bus adds exactly that bus's row to the batteries of the others. |
| `Scenario.Network.AddBatteryStorage` | code/pypsa_utilities.py:33-53 | The storage table afterwards is the old table plus the batteries of all buses, with one cost for all. No other field of the network changes. |
| `Emissions.Co2Constraint` | code/Naime-1stBlock.py:49-56 | The constraint is on "co2_emissions" with sense "<=". Its constant divided by the baseline 1012028560.7495946 gives back `co2_limit`. The constant is zero exactly when `co2_limit` is zero. A fraction in [0, 1] gives a bound between 0 and the baseline. |
| `Scenario.Network.AddCo2Limit` | code/pypsa_utilities.py:58-68 | Exactly one entry, "CO2Limit", is added to the global constraints. No other field changes. |
| `Text.LastTokenIsLastField` | code/Naime-1stBlock.py:158 | The country key of a bus is the longest suffix of the bus name without `_`. It is the whole name when there is no `_`, and otherwise it is preceded by a `_`. |
| `Text.Lower` | code/Naime-2ndBlock.py:177 | Lower-casing keeps the length and maps every upper-case letter to its lower-case letter and every other character to itself, so no upper-case letter is left. |
| `Text.LastTokenAfterLastSeparator` | code/Naime-1stBlock.py:158 | The token after the last separator: `p + "_" + t` with `t` free of `_` gives `t`, and a name without `_` gives itself. |
| `Text.HasInfix` | code/Naime-2ndBlock.py:178 | Python's substring test: true exactly when the pattern occurs at some position. |
| `Series.TotalScale` | code/Naime-1stBlock.py:173 | Multiplying every snapshot of a series by `f` multiplies its total by `f`. |
| `Demand.CountryOfBus` | code/pypsa_utilities.py:136 | A bus named `<prefix>_<code>`, with no `_` in `code`, belongs to country `code`. A bus name without `_` is its own country key. |
| `Demand.CountryDemandStep` | code/Naime-1stBlock.py:161 | A country's current total is the sum over the loads: no loads give 0, and one more load adds its whole series exactly when its bus is in that country and it has a series. |
| `Demand.NoDemandSumsToZero` | code/Naime-1stBlock.py:161 | A country none of whose loads has a demand series sums to 0. |
| `Demand.ScalingFactor` | code/Naime-1stBlock.py:164 | For a non-zero current total, the factor (target in TWh over total in TWh) times the total in MWh is the target in MWh. |
| `Demand.HasDemandWitness` | code/Naime-2ndBlock.py:152 | A country has a current total exactly when some load of it has a demand series. |
| `Demand.ScalingFactors` | code/Naime-1stBlock.py:153-167 | There is a factor for a country exactly when it has a target and a current total; undefined quotients are dropped. Each factor times the country's total in MWh is its target times 11.630 times 1e6. |
| `Demand.RescaledAmong` | code/Naime-1stBlock.py:170-173 | After the loads of `done` are visited, each of them whose country has a factor has its series multiplied by that factor. Every other series is kept, and none is added or dropped. |
| `Demand.CountryDemandScales` | code/pypsa_utilities.py:139 | Multiplying every series of a country by `f` multiplies the country's total by `f`, whatever the other countries' series are. |
| `Demand.CountryDemandAfterRescale` | code/pypsa_utilities.py:142-149 | After rescaling, a country with a factor has its total multiplied by it. A country without one, whose factor was undefined and dropped, keeps its total. |
| `Demand.RescaleMeetsTarget` | code/Naime-2ndBlock.py:144-164 | Given non-zero current totals, each country with a target and a total has exactly its target (MWh) as total afterwards, and every other country keeps its total. |
| `Demand.RescaleMeetsTargets` | code/pypsa_utilities.py:111-151 | The same, for all countries at once. |
| `Scenario.Network.RescaleLoads` | code/Naime-1stBlock.py:102-175 | Visiting the loads in table order leaves the demand series as every scaled load multiplied by its country's factor, and every country meets its target as above. Only the demand series change. |
| `HydroEdits.PhsConverted` | code/Naime-1stBlock.py:180-188 | The same rows as before. Every unit with carrier exactly "hydro" gets p_min_pu -1 and efficiency_store 0.9. No other attribute changes, and a unit that changes is a hydro unit. |
| `Scenario.Network.ConvertHydroToPhs` | code/pypsa_utilities.py:156-166 | The storage table becomes its conversion. No other field changes. |
| `Scenario.ConversionSparesBatteries` | code/Naime-1stBlock.py:182 | The conversion leaves the injected batteries alone, since their carrier is not "hydro": converting after injecting equals injecting after converting. |
| `HydroEdits.TransmissionExpanded` | code/Naime-1stBlock.py:193-196 | The same links as before, every one extendable, and no other attribute changed. |
| `Scenario.Network.ExpandTransmissionCapacity` | code/pypsa_utilities.py:171-176 | The links table becomes its expansion. No other field changes. |
| `HydroEdits.InflowSeriesScaled` | code/Naime-2ndBlock.py:176-182 | Every storage unit whose lower-cased carrier does not contain "phs" has each snapshot of its inflow series multiplied by the factor. Skipped units' series are kept, and no series is added or dropped. |
| `HydroEdits.StaticInflowScaled` | code/Naime-2ndBlock.py:183-188 | With a static inflow column, a non-skipped unit with a numeric inflow has it multiplied by the factor. A cell that raises is kept, as is every unit without the column. No other attribute changes. |
| `HydroEdits.InflowScalingInvertible` | code/Naime-2ndBlock.py:171-188 | For a non-zero factor, scaling by the factor and then by its inverse gives back both the series and the storage rows. |
| `Scenario.Network.ScaleHydroInflowAllCountries` | code/Naime-2ndBlock.py:176-188 | Visiting every storage unit once leaves the inflow series and the storage rows scaled as above. Only those two fields change. |
| `Scenario.Network.ScaleUnitInflow` | code/Naime-2ndBlock.py:177-188 | One unit's iteration: unless skipped, its series (if any) and its numeric static inflow (if the column exists) are multiplied. Nothing else changes. |
| `HydroEdits.HydroGeneratorsExtendable` | code/Naime-2ndBlock.py:194 | A generator is extendable afterwards exactly when it was before or its carrier is exactly "hydro". Order and every other attribute are kept. |
| `HydroEdits.PhsStorageExtendable` | code/Naime-2ndBlock.py:195 | A storage unit is extendable afterwards exactly when it was before or its lower-cased carrier is exactly "phs". Every other attribute is kept. |
| `Scenario.Network.ScaleHydroAndPhs` | code/Naime-2ndBlock.py:193-196 | Generators and storage units become their extendable versions, and the table invariants are kept. No other field changes. |
| `HydroEdits.SkipsInflowIffPhsAnyCase` | code/Naime-2ndBlock.py:177-178 | The inflow scaler skips a unit exactly when its carrier contains the letters p, h, s in a row, each in either case. |
| `HydroEdits.IsPhsStorageIffPhsAnyCase` | code/Naime-2ndBlock.py:195 | The extendability mask selects a unit exactly when its carrier is three letters p, h, s, each in either case. |
| `HydroEdits.OccursPhsAt` | code/Naime-2ndBlock.py:177-178 | "phs" occurs at a position of the lower-cased carrier exactly when p, h, s in either case start there in the carrier. |
| `HydroEdits.PhsMaskInsideSkip` | code/Naime-2ndBlock.py:178-195 | Every unit made extendable by the storage mask is also skipped by the inflow scaler. |
| `HydroEdits.HydroCarrierScaled` | code/Naime-2ndBlock.py:178-195 | A unit with carrier "hydro" is in neither mask: its inflow is scaled and it is not made extendable. |
| `HydroEdits.MasksDiffer` | code/Naime-2ndBlock.py:178-195 | The inclusion of the storage mask in the skip test is strict: "PHS" passes both, while "phs-open" is skipped by the scaler but not made extendable. |
| `Retrofit.IdentifyHydro` | code/ChatGPT-TryOne.py:13-20 | Exactly the generators with carrier "hydro", with their rows. The index is the generators' index filtered to those, in table order. Without a carrier column the result is an empty table. |
| `Tables.Table.Where` | code/ChatGPT-TryOne.py:16 | A masked copy keeps the rows satisfying the mask, unchanged. Its index is the old index filtered by the mask, in the old order, and it is well formed. |
| `Retrofit.RatingOrZero` | code/ChatGPT-TryOne.py:48 | The rating read for a generator: 0 when no p_nom is read, and any non-zero value read is the generator's own p_nom. |
| `Retrofit.SkippedGenerator` | code/ChatGPT-TryOne.py:48-51 | A hydro generator whose rating is 0 or less is skipped: no entry names it, and no reservoir or pump link is built under its names. |
| `Retrofit.Plan` | code/ChatGPT-TryOne.py:45-51 | The entries list the hydro generators with a positive rating (a missing p_nom reads 0) in visiting order and skip the others. Each entry is the record built for its generator. |
| `Retrofit.Entry` | code/ChatGPT-TryOne.py:100-107 | The record holds the generator id, its bus, its rating and the names `PHS_<gid>_store`, `PHS_<gid>_turb` and `PHS_<gid>_pump_link`. |
| `Retrofit.PlanCoversConverted` | code/ChatGPT-TryOne.py:120-121 | The returned list names each hydro generator with a positive rating exactly once and no other generator. Its length is their number. |
| `Retrofit.NamesInjective` | code/ChatGPT-TryOne.py:61-63 | Distinct generators get distinct reservoir, turbine and pump names, and no turbine is named like its generator. |
| `Retrofit.Reservoir` | code/ChatGPT-TryOne.py:67-74 | The reservoir is on the generator's bus with no p_nom, e_nom = p_nom * 168, efficiency_store 1, standing loss 0 and capital cost 200e3 * e_nom. |
| `Retrofit.Turbine` | code/ChatGPT-TryOne.py:77-85 | The turbine is on the same bus with the same p_nom, marginal cost 0, efficiency 0.9, non-extendable, and capital cost 1e6 * p_nom. |
| `Retrofit.PumpLink` | code/ChatGPT-TryOne.py:91-97 | The pump link runs from the bus to itself with the same p_nom, efficiency 0.85 and capital cost 1e6 * p_nom. |
| `Retrofit.Reservoirs` | code/ChatGPT-TryOne.py:61-74 | The reservoirs added are keyed exactly by the store names of the entries. |
| `Retrofit.ReservoirsRows` | code/ChatGPT-TryOne.py:66-74 | Each entry's reservoir row is the one built for that entry. |
| `Retrofit.PumpLinks` | code/ChatGPT-TryOne.py:91-92 | The pump links added are keyed exactly by the pump-link names of the entries. |
| `Retrofit.PumpLinksRows` | code/ChatGPT-TryOne.py:87-97 | Each entry's pump-link row is the one built for that entry. |
| `Tables.Table.Insert` | code/ChatGPT-TryOne.py:77-80 | `add` appends a row under a new name: the name goes at the end of the index. The other rows are kept, the table grows by one, and it stays well formed. |
| `Tables.Table.Delete` | code/ChatGPT-TryOne.py:117-118 | `remove` drops the named row: its name leaves the index and the other names keep their order. The other rows are kept, the table shrinks by one if the name was there, and it stays well formed. |
| `Tables.InsertThenDelete` | code/ChatGPT-TryOne.py:76-118 | Adding a turbine under a fresh name and then, if asked, removing the original: the table stays well formed, gains the turbine, loses the original, keeps every other row, and its size grows by 1 or 0. |
| `Retrofit.RetrofitGeneratorsEffect` | code/ChatGPT-TryOne.py:44-118 | Afterwards every entry's turbine is in the generators table with its row. With `remove_old` every original is gone and the table keeps its size. Without it every original is kept unchanged and the table grows by one turbine per entry. Generators nobody retrofits are kept either way, and the table stays well formed. |
| `Scenario.Network.RetrofitOneGenerator` | code/ChatGPT-TryOne.py:58-118 | One converted generator: its record is returned, its reservoir and pump link are added, its turbine is added and the original removed if asked. Nothing else changes. |
| `Scenario.Network.RetrofitVisit` | code/ChatGPT-TryOne.py:45-118 | One pass of the loop: the generator at the current position is retrofitted if its rating is positive and skipped otherwise. The plan and the three tables move on by exactly that generator. |
| `Scenario.Network.RetrofitEach` | code/ChatGPT-TryOne.py:44-118 | The loop over the hydro copy returns the plan. It leaves the storage units with the plan's reservoirs added, the generators retrofitted entry by entry, and the links with the plan's pump links added. |
| `Scenario.Network.RetrofitHydroToPhs` | code/ChatGPT-TryOne.py:38-121 | Without hydro generators nothing changes and the result is None. Otherwise the result is the plan, the three tables change as for `RetrofitEach`, and the tables stay well formed. |

## Left out

- Loading, solving and exporting the network is file I/O and a call into an external solver: `load_and_create_base_network`, `solve_network`, `export_network` and `export_network_to_csv`. Also left out are the plotting scripts, the `__main__` scenario loops, the commented-out code and the truncation of the snapshots.
- `compute_inflow_timeseries` (code/ChatGPT-TryOne.py:22-35) probes the library's time-series container, whose shape is not part of this model, and the retrofit never uses its result.
- Numbers are exact reals. IEEE rounding is not modelled, nor are NaN and infinite values beyond "undefined factor, dropped". `Blank` stands for a missing value or a cell whose arithmetic raises.
- Retrofit.RatingOrZero: a Blank rating reads 0, so the generator is skipped. The source reads 0 only when the generators table has no p_nom column (code/ChatGPT-TryOne.py:48), while the model allows Blank per row. In the source a NaN cell passes the `p_nom <= 0` test and is converted, and a None or text cell makes `float()` raise, which ends the retrofit. Neither is modelled, because NaN and exceptions are outside this model.
- The library's behaviour on `add` under a name already in use is not part of this model. `AddBatteryStorage`, `AddCo2Limit` and `RetrofitHydroToPhs` require the names they add to be fresh.
- Attributes an `add` call does not pass take the library's default row. That row is a constant of the network (`generatorDefaults`, `storageDefaults`, `linkDefaults`), not a guessed value.
- `annuity(n, r)` with `n == 0` raises ZeroDivisionError in both branches, so `Annuity` requires `n != 0`.
- `rescale_loads` raises KeyError when a load of a scaled country has no demand series, and divides by zero for a country whose current total is zero. `RescaleLoads` requires neither to happen.
- `scale_hydro_and_phs` raises when the generators table has no carrier column, so `ScaleHydroAndPhs` requires one.
- Carriers are taken to be strings. `str()` of a non-string carrier is not modelled, and lower-casing covers ASCII letters only.
- Row order is modelled only for the generators and the loads. Buses and storage units are visited in an unspecified order (`:|`), which cannot change the result, because every visit touches its own row only.
- Diagnostics printed by the retrofit, its `marker_tag` parameter, the `tags` branch that does nothing, and the unused `pump_name` and `inflow_ts` variables have no effect on the tables.
- The Naime scripts recompute the battery capital cost inside the loop, while `pypsa_utilities.py` computes it once. The expression is the same, so the model computes it once for all three.
- `Scenario.Network.AddBatteryStorage` states the new storage table exactly. The size of that table and the untouched existing units are stated separately, by `Battery.BatteryInjectionGrowsTable`.
