/** The results view: temperature status and the overview tiles. */
module Dashboard {
  import opened Wrappers
  import opened Cells
  import opened Configs
  import opened Results

  datatype TempStatus = Normal | Warning | Critical

  /** Severity order of the statuses. */
  function Severity(s: TempStatus): nat {
    match s
    case Normal => 0
    case Warning => 1
    case Critical => 2
  }

  /** `get_temp_status`, in degrees Celsius: the per-row "Temp Status" column.
      The three bands cover every temperature without gap or overlap, and 38
      itself is still a warning. */
  function GetTempStatus(t: real): (s: TempStatus)
    ensures s == Normal <==> t < 35.0
    ensures s == Warning <==> 35.0 <= t <= 38.0
    ensures s == Critical <==> 38.0 < t
  {
    if t < 35.0 then Normal else if t <= 38.0 then Warning else Critical
  }

  /** A hotter cell is never rated less severe. */
  lemma StatusMonotone(t: real, u: real)
    requires t <= u
    ensures Severity(GetTempStatus(t)) <= Severity(GetTempStatus(u))
  {
  }

  /** The status of a row whose temperature is held in tenths of a degree:
      the same bands, with 350 and 380 as the edges of the warning band. */
  function RowStatus(r: CellRecord): (s: TempStatus)
    ensures s == Normal <==> r.temperature < 350
    ensures s == Warning <==> 350 <= r.temperature <= 380
    ensures s == Critical <==> 380 < r.temperature
  {
    GetTempStatus(r.temperature as real / 10.0)
  }

  datatype MarkerColour = Green | Orange | Red

  /** The marker colour of the temperature chart: green below 35, orange up
      to and including 38, red above. */
  function MarkerColourOf(t: real): (colour: MarkerColour)
    ensures colour == Green <==> t < 35.0
    ensures colour == Orange <==> 35.0 <= t <= 38.0
    ensures colour == Red <==> 38.0 < t
  {
    if t < 35.0 then Green else if t <= 38.0 then Orange else Red
  }

  /** The chart's marker colours follow the row status band for band. */
  lemma MarkerColourMatchesStatus(t: real)
    ensures MarkerColourOf(t) == Green <==> GetTempStatus(t) == Normal
    ensures MarkerColourOf(t) == Orange <==> GetTempStatus(t) == Warning
    ensures MarkerColourOf(t) == Red <==> GetTempStatus(t) == Critical
  {
  }

  /** The status under the "Avg Temperature" tile, which bounds its warning
      band with a strict `< 38`, so that 38 itself is already critical. */
  function OverviewStatus(t: real): (s: TempStatus)
    ensures s == Normal <==> t < 35.0
    ensures s == Warning <==> 35.0 <= t < 38.0
    ensures s == Critical <==> 38.0 <= t
  {
    if t < 35.0 then Normal else if t < 38.0 then Warning else Critical
  }

  /** The tile and the table agree on every temperature except exactly 38
      degrees, which the table rates Warning and the tile Critical. */
  lemma OverviewDivergesOnlyAt38(t: real)
    ensures OverviewStatus(t) != GetTempStatus(t) <==> t == 38.0
    ensures t == 38.0 ==> GetTempStatus(t) == Warning && OverviewStatus(t) == Critical
  {
  }

  /** The "Total Capacity" tile: every row's capacity is part of the total. */
  function TotalCapacity(rows: seq<CellRecord>): (total: nat)
    ensures forall k :: 0 <= k < |rows| ==> rows[k].capacity <= total
  {
    if rows == [] then 0 else rows[0].capacity + TotalCapacity(rows[1..])
  }

  /** The "Total Current" tile: every row's current is part of the total. */
  function TotalCurrent(rows: seq<CellRecord>): (total: nat)
    ensures forall k :: 0 <= k < |rows| ==> rows[k].current <= total
  {
    if rows == [] then 0 else rows[0].current + TotalCurrent(rows[1..])
  }

  /** The sum behind the "Avg Temperature" tile: every row's temperature is part of it. */
  function TotalTemperature(rows: seq<CellRecord>): (total: nat)
    ensures forall k :: 0 <= k < |rows| ==> rows[k].temperature <= total
  {
    if rows == [] then 0 else rows[0].temperature + TotalTemperature(rows[1..])
  }

  /** The total of a one-row table is that row's value. */
  lemma TotalsSingle(r: CellRecord)
    ensures TotalCapacity([r]) == r.capacity
    ensures TotalCurrent([r]) == r.current
    ensures TotalTemperature([r]) == r.temperature
  {
    assert [r][1..] == [];
  }

  /** The totals are additive: the total of two tables laid end to end is the
      sum of their totals. With TotalsSingle this makes each total the sum of
      its column. */
  lemma {:induction false} TotalsAppend(a: seq<CellRecord>, b: seq<CellRecord>)
    ensures TotalCapacity(a + b) == TotalCapacity(a) + TotalCapacity(b)
    ensures TotalCurrent(a + b) == TotalCurrent(a) + TotalCurrent(b)
    ensures TotalTemperature(a + b) == TotalTemperature(a) + TotalTemperature(b)
  {
    if a == [] {
      assert a + b == b;
    } else {
      assert (a + b)[1..] == a[1..] + b;
      TotalsAppend(a[1..], b);
    }
  }

  /** The sum of the configured currents. */
  function ConfiguredCurrent(configs: seq<CellConfig>): nat {
    if configs == [] then 0 else configs[0].current + ConfiguredCurrent(configs[1..])
  }

  /** The sum of the capacities the configured cells are rated at. */
  function ConfiguredCapacity(configs: seq<CellConfig>): nat {
    if configs == [] then 0
    else Capacity(configs[0].chemistry, configs[0].current) + ConfiguredCapacity(configs[1..])
  }

  /** One record per configuration sums to the configured current and
      capacity, whatever the temperature draws. */
  lemma {:induction false} RecordTotals(configs: seq<CellConfig>, temps: seq<nat>)
    requires |temps| == |configs|
    ensures TotalCurrent(Records(configs, temps)) == ConfiguredCurrent(configs)
    ensures TotalCapacity(Records(configs, temps)) == ConfiguredCapacity(configs)
  {
    if configs != [] {
      var rs := Records(configs, temps);
      assert rs[1..] == Records(configs[1..], temps[1..]);
      RecordTotals(configs[1..], temps[1..]);
    }
  }

  /** After "Generate Results" on the sidebar's configurations, the "Total
      Current" and "Total Capacity" tiles are the sums over the configured
      cells of their currents and rated capacities. */
  lemma GeneratedTotals(configs: seq<CellConfig>, temps: seq<nat>)
    requires |temps| == |configs| && Increasing(configs)
    ensures TotalCurrent(Assigned(configs, temps)) == ConfiguredCurrent(configs)
    ensures TotalCapacity(Assigned(configs, temps)) == ConfiguredCapacity(configs)
  {
    AssignedDistinctCells(configs, temps);
    RecordTotals(configs, temps);
  }

  /** The four overview tiles. Totals are in centi-watt-hours and centiamps,
      the means in the same units, the mean temperature in degrees. */
  datatype Summary = Summary(
    count: nat,
    totalCapacity: nat,
    meanCapacity: real,
    meanTemperature: real,
    temperatureStatus: TempStatus,
    totalCurrent: nat,
    meanCurrent: real)

  /** The tiles over a non-empty table: every mean is the total over exactly
      the number of rows. */
  function Summarize(rows: seq<CellRecord>): (s: Summary)
    requires rows != []
    ensures s.count == |rows| > 0
    ensures s.totalCapacity == TotalCapacity(rows) && s.totalCurrent == TotalCurrent(rows)
    ensures s.meanCapacity * s.count as real == TotalCapacity(rows) as real
    ensures s.meanCurrent * s.count as real == TotalCurrent(rows) as real
    ensures s.meanTemperature * (10 * s.count) as real == TotalTemperature(rows) as real
    ensures s.temperatureStatus == OverviewStatus(s.meanTemperature)
  {
    var n := |rows| as real;
    var meanTemperature := TotalTemperature(rows) as real / (10.0 * n);
    Summary(
      |rows|,
      TotalCapacity(rows),
      TotalCapacity(rows) as real / n,
      meanTemperature,
      OverviewStatus(meanTemperature),
      TotalCurrent(rows),
      TotalCurrent(rows) as real / n)
  }

  /** If every row lies between `lo` and `hi` tenths, so does the sum, times the count. */
  lemma {:induction false} TotalTemperatureBounds(rows: seq<CellRecord>, lo: nat, hi: nat)
    requires forall k :: 0 <= k < |rows| ==> lo <= rows[k].temperature <= hi
    ensures lo * |rows| <= TotalTemperature(rows) <= hi * |rows|
  {
    if rows != [] {
      TotalTemperatureBounds(rows[1..], lo, hi);
      assert lo * |rows| == lo + lo * |rows[1..]|;
      assert hi * |rows| == hi + hi * |rows[1..]|;
    }
  }

  lemma QuotientBounds(total: real, d: real, lo: real, hi: real)
    requires d > 0.0 && lo * d <= total <= hi * d
    ensures lo <= total / d <= hi
  {
  }

  /** Since every draw lies in [25.0, 40.0], so does the mean temperature tile. */
  lemma MeanTemperatureInRange(rows: seq<CellRecord>)
    requires rows != []
    requires forall k :: 0 <= k < |rows| ==> InTemperatureRange(rows[k].temperature)
    ensures 25.0 <= Summarize(rows).meanTemperature <= 40.0
  {
    TotalTemperatureBounds(rows, 250, 400);
    var n := |rows|;
    var total := TotalTemperature(rows);
    assert (250 * n) as real == 25.0 * (10.0 * n as real);
    assert (400 * n) as real == 40.0 * (10.0 * n as real);
    QuotientBounds(total as real, 10.0 * n as real, 25.0, 40.0);
  }

  /** The overview, computed only when the results view is shown: it exists
      exactly when a generation has happened, and then covers every record. */
  function Overview(session: Session): (o: Option<Summary>)
    reads session
    ensures session.Valid() ==> (o.Some? <==> session.generated)
    ensures o.Some? ==> o.value.count == |session.cellsData| > 0
    ensures o.Some? ==> o.value == Summarize(session.cellsData)
  {
    if session.ResultsVisible() then Some(Summarize(session.cellsData)) else None
  }

  /** In a valid session the mean temperature shown lies in [25.0, 40.0]. */
  lemma OverviewTemperatureInRange(session: Session)
    requires session.Valid() && session.generated
    ensures Overview(session).Some?
    ensures 25.0 <= Overview(session).value.meanTemperature <= 40.0
  {
    MeanTemperatureInRange(session.cellsData);
  }
}
