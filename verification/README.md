# Battery Cell Management System — verified model of the cell logic

The battery manager is a single Streamlit script. A user configures 1 to 8
battery cells in the sidebar. For each cell they pick a chemistry (LFP, MNC or
Other) and a current. "Generate Results" then derives one record per configured
cell and stores it in the session: nominal voltage, min/max voltage, capacity,
and a random temperature. "Reset All" clears the session. The results view
shows overview tiles (count, total and mean capacity, mean temperature with a
status, total and mean current) and a table with a per-row temperature status.

This project models that logic in Dafny and proves what it promises.

- `Cells` (`cells.dfy`): the chemistry table, the capacity, the record key
  `cell_{num}_{type}` and the upper-cased "Type" label.
- `Configs` (`configs.dfy`): the sidebar loop that turns the per-cell widgets
  into the list of configured cells, and the sidebar's voltage/capacity hint.
- `Results` (`results.dfy`): the record, dictionary assignment on an
  insertion-ordered dictionary, and the `Session` class. The class holds
  `cells_data` and `generated` and has the Generate and Reset actions.
- `Dashboard` (`dashboard.dfy`): `get_temp_status`, the chart's marker
  colours, the overview tile's status, and the aggregates.
- `Text` (`text.dfy`): decimal rendering of a cell number and ASCII
  upper-casing. `Wrappers` (`wrappers.dfy`) holds `Option`.

Units are scaled integers, so no floating point is involved:
- voltages are in decivolts (3.2 V is 32);
- currents are in centiamps (the number input shows two decimals);
- capacities are in centi-watt-hours (32.00 Wh is 3200);
- temperatures are in tenths of a degree Celsius.

Voltage times current is then a whole number of milli-watt-hours.
`round(voltage * current, 2)` is the nearest multiple of ten of that number.
Both nominal voltages are even, so the product never ends in 5, so the rounding
never meets a tie (`Cells.Capacity`). When the current is a whole number of
tenths of an ampere (the widget's step), the capacity is exact.

The session's dictionary is a sequence of records. Each record carries its own
key, and assignment replaces an existing key where it stands or appends a new
one, as a Python dict does. The session keeps three facts as its invariant:
keys are distinct, every temperature lies in [25.0, 40.0], and `generated` is
set exactly when the dictionary is non-empty. So the results-view condition
`generated and cells_data` is simply `generated`.

The per-row status (`get_temp_status`) and the mean-temperature tile use
different upper edges for the warning band. The row status uses `<= 38`, the
tile uses `< 38`. They therefore disagree at exactly 38.0 degrees: the row says
Warning and the tile says Critical. The model keeps both as written and proves
that 38.0 is the only temperature where they differ (`< 38` at
streamlit_battery_manager.py:176 against `<= 38` at :203).

The aggregates divide by the number of rows. They are only computed behind the
results-view guard at :151, so an empty table is never aggregated
(`Dashboard.Overview`).

## Model

| member | source | states |
|---|---|---|
| Cells.NominalVoltage | streamlit_battery_manager.py:120 | Nominal voltage depends on the chemistry alone. It lies in the chemistry's [min, max] band exactly when the chemistry is not MNC; for MNC (3.6 V) it lies above the 3.4 V maximum |
| Cells.MaxVoltage | streamlit_battery_manager.py:121 | Maximum voltage is 4.0 V for every chemistry except MNC (3.4 V) |
| Cells.MinVoltage | streamlit_battery_manager.py:122 | Minimum voltage is strictly below the maximum for every chemistry, and is 2.8 V exactly for LFP |
| Cells.Capacity | streamlit_battery_manager.py:124 | Capacity is the unique nearest hundredth of a watt-hour to voltage times current, with no tie possible; it is exact for currents in 0.1 A steps |
| Cells.DocumentedTable | streamlit_battery_manager.py:416-418 | The in-app help's table holds: LFP 3.2/2.8/4.0 V, MNC 3.6/3.2/3.4 V, Other 3.6/3.2/4.0 V (nominal/min/max) |
| Cells.Key | streamlit_battery_manager.py:126 | The key is `cell_`, the digits of the cell number, an underscore and the type name; its length and the position of the separating underscore follow from those parts |
| Cells.KeyInjective | streamlit_battery_manager.py:126 | The key `cell_{num}_{type}` determines both the cell number and the chemistry |
| Cells.Label | streamlit_battery_manager.py:130 | The "Type" column is LFP, MNC or OTHER for the three chemistries |
| Cells.LabelValues | streamlit_battery_manager.py:130 | The "Type" column reads LFP, MNC or OTHER, and different chemistries get different labels |
| Text.Decimal | streamlit_battery_manager.py:126 | The rendering of a cell number is a non-empty string of digits, one digit long exactly below 10, with no leading zero for a positive number |
| Text.DecimalRoundTrip | streamlit_battery_manager.py:126 | Reading the rendered digits back gives the cell number |
| Text.Upper | streamlit_battery_manager.py:130 | Upper-casing keeps the length, leaves no lower-case letter, changes exactly the lower-case letters, and turns each into its own capital (code point minus 32) |
| Configs.CollectConfigs | streamlit_battery_manager.py:72-108 | Cell i in 1..num_cells is kept exactly when a type is selected and its current is above zero. Each kept entry carries that cell's own widget values, cell numbers strictly increase, and there are at most num_cells (at most 8) entries |
| Configs.Preview | streamlit_battery_manager.py:98-101 | The sidebar hint appears exactly for a configured cell; its voltage is the chemistry's nominal voltage and its capacity is the rounded voltage times current |
| Results.PreviewMatchesRecord | streamlit_battery_manager.py:99-124 | The sidebar hint and the generated record give the same voltage and the same capacity for the same type and current |
| Results.MakeRecord | streamlit_battery_manager.py:116-137 | A record's id is the key of its cell number and chemistry, its Type is the chemistry's label, and its voltage, max voltage and min voltage are the chemistry's. It keeps the configured current and the drawn temperature; its min voltage is below its max; its capacity is the nearest hundredth of its voltage times its current |
| Results.RecordIsDerived | streamlit_battery_manager.py:116-137 | Every column except the id and the temperature is fixed by chemistry and current alone. Min voltage is below max voltage. For the same chemistry, two records have different ids exactly when their cell numbers differ |
| Results.Put | streamlit_battery_manager.py:128 | After assignment the record is in the dictionary, which grows by at most one entry |
| Results.PutInPlace | streamlit_battery_manager.py:128 | Assigning a key already present in a dictionary with distinct keys replaces that entry at its position; every other entry keeps its place |
| Results.PutKeys | streamlit_battery_manager.py:128 | Dictionary assignment adds exactly the record's key; a new key goes at the end |
| Results.PutEntries | streamlit_battery_manager.py:128 | After assignment the record is present, every entry under another key is kept, and nothing else is added |
| Results.PutDistinct | streamlit_battery_manager.py:128 | Assignment keeps keys distinct, and assigning an existing key keeps the size |
| Results.AssignedShape | streamlit_battery_manager.py:113-139 | The dictionary the Generate loop builds has distinct keys. It holds only temperatures from the draws, and it is empty exactly when there were no configurations |
| Results.AssignedDistinctCells | streamlit_battery_manager.py:113-139 | With increasing cell numbers, the dictionary holds exactly one record per configuration, in order, so its size is the number of configurations |
| Results.Session.constructor | streamlit_battery_manager.py:61-65 | The session starts with an empty dictionary and the flag cleared, which satisfies the invariant |
| Results.Session.ResultsVisible | streamlit_battery_manager.py:151 | In a valid session the results view is shown exactly when the flag is set, and then the dictionary is non-empty |
| Results.Session.Generate | streamlit_battery_manager.py:111-142 | With configurations, all prior records are discarded and the dictionary is rebuilt by one assignment per configuration: one record per config when cell numbers increase, and the flag is set. With none, nothing changes. The invariant is kept |
| Results.Session.Reset | streamlit_battery_manager.py:144-148 | Reset leaves an empty dictionary and a cleared flag whatever the state was, so it is idempotent and hides the results view |
| Dashboard.GetTempStatus | streamlit_battery_manager.py:200-206 | Status is total and partitions temperatures: below 35 Normal, 35 to 38 inclusive Warning, above 38 Critical |
| Dashboard.StatusMonotone | streamlit_battery_manager.py:200-206 | A hotter temperature never gets a less severe status |
| Dashboard.RowStatus | streamlit_battery_manager.py:208 | The row status of a temperature in tenths uses 350 and 380 as the edges of the warning band |
| Dashboard.MarkerColourOf | streamlit_battery_manager.py:267 | The marker is green below 35, orange from 35 up to and including 38, red above 38 |
| Dashboard.MarkerColourMatchesStatus | streamlit_battery_manager.py:267 | The chart's green/orange/red markers follow the Normal/Warning/Critical bands exactly |
| Dashboard.OverviewStatus | streamlit_battery_manager.py:176 | The tile's status is Normal below 35, Warning from 35 up to but excluding 38, Critical from 38 on |
| Dashboard.OverviewDivergesOnlyAt38 | streamlit_battery_manager.py:176 | The tile's status differs from the row status at exactly 38 degrees, where the tile says Critical and the row says Warning |
| Dashboard.TotalCapacity | streamlit_battery_manager.py:167 | Every row's capacity is at most the "Total Capacity" value; TotalsSingle and TotalsAppend together make it the sum of the column |
| Dashboard.TotalCurrent | streamlit_battery_manager.py:184 | Every row's current is at most the "Total Current" value; TotalsSingle and TotalsAppend together make it the sum of the column |
| Dashboard.TotalsSingle | streamlit_battery_manager.py:167-184 | A one-row table's capacity, current and temperature totals are that row's values |
| Dashboard.TotalsAppend | streamlit_battery_manager.py:167-188 | The capacity, current and temperature totals are additive: the total of two tables laid end to end is the sum of their totals. With TotalsSingle, each total is the sum of its column |
| Dashboard.RecordTotals | streamlit_battery_manager.py:113-137 | One record per configuration totals exactly the configured currents and the configured cells' rated capacities, whatever the temperature draws |
| Dashboard.GeneratedTotals | streamlit_battery_manager.py:111-188 | After Generate on increasing cell numbers, the "Total Current" and "Total Capacity" tiles are the sums of the configured currents and of each configured cell's capacity |
| Dashboard.TotalTemperature | streamlit_battery_manager.py:175 | Every row's temperature is at most the sum behind the "Avg Temperature" mean; TotalsSingle and TotalsAppend together make it the sum of the column, so the tile is the arithmetic mean |
| Dashboard.Summarize | streamlit_battery_manager.py:159-189 | Over a non-empty table, the count is the number of rows, the totals are the capacity and current sums over all rows, and each mean times the count is the corresponding total. The tile status is that of the mean temperature |
| Dashboard.TotalTemperatureBounds | streamlit_battery_manager.py:175 | If every row's temperature lies in [lo, hi], the sum lies between lo and hi times the count |
| Dashboard.MeanTemperatureInRange | streamlit_battery_manager.py:175 | With every draw in [25.0, 40.0], the mean temperature also lies in [25.0, 40.0] |
| Dashboard.Overview | streamlit_battery_manager.py:151-189 | Aggregates are computed only when the results view is shown, so never over an empty table. In a valid session they exist exactly when generated, and they are the summary of the whole dictionary |
| Dashboard.OverviewTemperatureInRange | streamlit_battery_manager.py:151-181 | In a valid, generated session the mean temperature tile lies in [25.0, 40.0] |

## Left out

- Page configuration, CSS, headers, the welcome screen and all widget calls: presentation only. The widgets' values come in as `Configs.CellInput` values, and the slider's 1..8 range is a precondition.
- The sidebar success and error messages after Generate and Reset: presentation only.
- The Plotly charts (capacity bars, temperature scatter, voltage subplots, power pie, radar). They call a rendering library. Only the marker colour rule of the temperature chart is modelled. The chart code uses `go` and `make_subplots`, which the script never imports; that failure is not modelled.
- The radar chart's min-max normalisation: floating-point scaling with no stated contract (it divides by zero when all values are equal).
- The pandas DataFrame, `to_csv` and `to_json` exports: these are library calls. The table is modelled as the sequence of records.
- `random.uniform` and its rounding: the temperatures are an input to `Generate`, one per configuration, required to lie in [250, 400] tenths.
- Results.Session.Generate: requires every temperature draw to lie in [250, 400] tenths, which is the random source's contract rather than a check the script makes.
- Cells.Capacity: currents are whole centiamps. A value typed with more than two decimals, and the binary rounding of Python floats, are not modelled.
- Display formatting of the tiles and columns (`:.1f`, `%.2f`): presentation only. The means are exact reals.
