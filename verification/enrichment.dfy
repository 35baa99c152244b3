/** The enrichment join `create_weather_phenomena_dataset`: hourly
    observations joined with the alert table into one dense table with a
    rendered `datetime` column, the carried-through precipitation and
    temperature, and one vigilance column per phenomenon id 1..num. */
module Enrichment {
  import opened Wrappers
  import opened Vigilance
  import opened Decimal
  import Calendar
  import TimestampFormat

  /** One row of the hourly table, restricted to the three columns kept.
      Precipitation and temperature are carried through untouched, so their
      type is left open. */
  datatype Observation<M> = Observation(time: int, precipitation: M, temperature: M)

  /** One row of the enriched table; `phenomena[j]` is column
      `phenomene_<j+1>`. */
  datatype Row<M> = Row(datetime: string, precipitation: M, temperature: M, phenomena: seq<int>)

  datatype Dataset<M> = Dataset(columns: seq<string>, rows: seq<Row<M>>)

  /** How many phenomenon columns `range(1, num + 1)` produces. */
  function PhenomenonCount(num: int): nat {
    if num < 0 then 0 else num
  }

  /** The header of phenomenon column `id`: the prefix `phenomene_`
      followed by the id in decimal, which reads back as the id. */
  function PhenomenonColumnName(id: nat): (name: string)
    ensures |name| > 10 && name[..10] == "phenomene_"
    ensures AllDigits(name[10..]) && Value(name[10..]) == id
  {
    var name := "phenomene_" + Dec(id);
    assert name[10..] == Dec(id);
    name
  }

  /** The header of the enriched table. */
  function ColumnNames(num: int): (names: seq<string>)
    ensures |names| == 3 + PhenomenonCount(num)
    ensures names[..3] == ["datetime", "quantite_precipitations", "temperature_instant"]
    ensures forall j :: 3 <= j < |names| ==> names[j] == PhenomenonColumnName(j - 2)
  {
    ["datetime", "quantite_precipitations", "temperature_instant"]
      + seq(PhenomenonCount(num), j requires 0 <= j => PhenomenonColumnName(j + 1))
  }

  /** Column `phenomene_<id>` before the final fill, built as the source
      builds it: all default when the phenomenon has no alert, otherwise
      the per-row lookup applied to every instant. */
  function PhenomenonColumn(alerts: seq<Alert>, id: int, times: seq<int>): (col: seq<Option<int>>)
    ensures |col| == |times|
    ensures forall k :: 0 <= k < |times| ==> col[k] == Lookup(alerts, id, times[k])
  {
    var phenomAlerts := OfPhenomenon(alerts, id);
    if |phenomAlerts| == 0 then seq(|times|, _ => Some(DefaultLevel))
    else seq(|times|, k requires 0 <= k < |times| => GetVigilance(phenomAlerts, times[k]))
  }

  /** `fillna(1)` on one column: present levels are kept, missing ones
      become the default. */
  function FillMissing(col: seq<Option<int>>): (filled: seq<int>)
    ensures |filled| == |col|
    ensures forall k :: 0 <= k < |col| && col[k].Some? ==> filled[k] == col[k].value
    ensures forall k :: 0 <= k < |col| && col[k].None? ==> filled[k] == DefaultLevel
  {
    seq(|col|, k requires 0 <= k < |col| => col[k].GetOr(DefaultLevel))
  }

  /** Column `phenomene_<id>` of the finished table: every cell is the
      resolved level of its instant. */
  function FilledColumn(alerts: seq<Alert>, id: int, times: seq<int>): (col: seq<int>)
    ensures |col| == |times|
    ensures forall k :: 0 <= k < |times| ==> col[k] == Resolve(alerts, id, times[k])
  {
    FillMissing(PhenomenonColumn(alerts, id, times))
  }

  /** The filled columns `phenomene_1` .. `phenomene_n`, column-major:
      `columns[j]` is column `phenomene_<j+1>` over the instants `times`. */
  function PhenomenonColumns(alerts: seq<Alert>, n: nat, times: seq<int>): (columns: seq<seq<int>>)
    ensures |columns| == n
    ensures forall j :: 0 <= j < n ==> columns[j] == FilledColumn(alerts, j + 1, times)
  {
    if n == 0 then []
    else PhenomenonColumns(alerts, n - 1, times) + [FilledColumn(alerts, n, times)]
  }

  /** Row `k` of the phenomenon columns. */
  function CellsOfRow(columns: seq<seq<int>>, k: nat): (cells: seq<int>)
    requires forall j :: 0 <= j < |columns| ==> k < |columns[j]|
    ensures |cells| == |columns|
    ensures forall j :: 0 <= j < |columns| ==> cells[j] == columns[j][k]
  {
    seq(|columns|, j requires 0 <= j < |columns| => columns[j][k])
  }

  /** The observation instants, in row order. */
  function Times<M>(hourly: seq<Observation<M>>): (times: seq<int>)
    ensures |times| == |hourly|
    ensures forall k :: 0 <= k < |hourly| ==> times[k] == hourly[k].time
  {
    seq(|hourly|, k requires 0 <= k < |hourly| => hourly[k].time)
  }

  /** One row of the enriched table: the instant renamed to `datetime` and
      rendered, the two measurements copied. */
  function EnrichedRow<M>(o: Observation<M>, cells: seq<int>): (row: Row<M>)
    requires Calendar.InPandasRange(o.time)
    ensures row.precipitation == o.precipitation && row.temperature == o.temperature
    ensures TimestampFormat.WellShaped(row.datetime)
    ensures TimestampFormat.Parse(row.datetime) == Some(Calendar.FromSeconds(o.time))
    ensures row.phenomena == cells
  {
    Row(TimestampFormat.Render(o.time), o.precipitation, o.temperature, cells)
  }

  /** The rows of the enriched table, from the observations and the
      column-major phenomenon columns. */
  function EnrichedRows<M>(hourly: seq<Observation<M>>, columns: seq<seq<int>>): (rows: seq<Row<M>>)
    requires forall k :: 0 <= k < |hourly| ==> Calendar.InPandasRange(hourly[k].time)
    requires forall j :: 0 <= j < |columns| ==> |columns[j]| == |hourly|
    ensures |rows| == |hourly|
    ensures forall k :: 0 <= k < |hourly| ==>
              && rows[k].precipitation == hourly[k].precipitation
              && rows[k].temperature == hourly[k].temperature
              && TimestampFormat.WellShaped(rows[k].datetime)
              && TimestampFormat.Parse(rows[k].datetime) == Some(Calendar.FromSeconds(hourly[k].time))
              && rows[k].phenomena == CellsOfRow(columns, k)
  {
    seq(|hourly|, k requires 0 <= k < |hourly| => EnrichedRow(hourly[k], CellsOfRow(columns, k)))
  }

  /** The enriched table. Every observation instant must be one pandas can
      hold, which keeps the rendered year at four digits. */
  function CreateWeatherPhenomenaDataset<M>(hourly: seq<Observation<M>>, alerts: seq<Alert>, num: int)
    : (r: Dataset<M>)
    requires forall k :: 0 <= k < |hourly| ==> Calendar.InPandasRange(hourly[k].time)
    ensures r.columns == ColumnNames(num)
    ensures |r.rows| == |hourly|
    ensures forall k :: 0 <= k < |hourly| ==>
              && r.rows[k].precipitation == hourly[k].precipitation
              && r.rows[k].temperature == hourly[k].temperature
    ensures forall k :: 0 <= k < |hourly| ==>
              && TimestampFormat.WellShaped(r.rows[k].datetime)
              && TimestampFormat.Parse(r.rows[k].datetime) == Some(Calendar.FromSeconds(hourly[k].time))
    ensures forall k :: 0 <= k < |hourly| ==> |r.rows[k].phenomena| == PhenomenonCount(num)
    ensures forall k, j :: 0 <= k < |hourly| && 0 <= j < PhenomenonCount(num) ==>
              r.rows[k].phenomena[j] == Resolve(alerts, j + 1, hourly[k].time)
  {
    var times := Times(hourly);
    var columns := PhenomenonColumns(alerts, PhenomenonCount(num), times);
    var rows := EnrichedRows(hourly, columns);
    RowCellsResolved(hourly, alerts, PhenomenonCount(num), rows);
    Dataset(ColumnNames(num), rows)
  }

  /** Transposing the column-major phenomenon columns into rows puts the
      resolved level of phenomenon `j + 1` at instant `k` in cell `j` of
      row `k`. */
  lemma RowCellsResolved<M>(hourly: seq<Observation<M>>, alerts: seq<Alert>, n: nat, rows: seq<Row<M>>)
    requires forall k :: 0 <= k < |hourly| ==> Calendar.InPandasRange(hourly[k].time)
    requires rows == EnrichedRows(hourly, PhenomenonColumns(alerts, n, Times(hourly)))
    ensures forall k, j :: 0 <= k < |hourly| && 0 <= j < n ==>
              rows[k].phenomena[j] == Resolve(alerts, j + 1, hourly[k].time)
  {
    var times := Times(hourly);
    var columns := PhenomenonColumns(alerts, n, times);
    forall k, j | 0 <= k < |hourly| && 0 <= j < n
      ensures rows[k].phenomena[j] == Resolve(alerts, j + 1, hourly[k].time)
    {
      assert rows[k].phenomena[j] == columns[j][k];
      assert columns[j] == FilledColumn(alerts, j + 1, times);
    }
  }

  /** Distinct phenomenon ids give distinct column names. */
  lemma PhenomenonColumnNamesDistinct(a: nat, b: nat)
    requires a != b
    ensures PhenomenonColumnName(a) != PhenomenonColumnName(b)
  {
    var na, nb := PhenomenonColumnName(a), PhenomenonColumnName(b);
    assert Value(na[10..]) != Value(nb[10..]);
  }

  /** A phenomenon column name is none of the three fixed column names. */
  lemma PhenomenonColumnNameNotFixed(id: nat)
    ensures PhenomenonColumnName(id) !in ["datetime", "quantite_precipitations", "temperature_instant"]
  {
    var name := PhenomenonColumnName(id);
    assert name[0] == name[..10][0] == 'p';
  }

  /** No two columns of the enriched table share a name. */
  lemma ColumnNamesDistinct(num: int)
    ensures forall i, j :: 0 <= i < j < |ColumnNames(num)| ==> ColumnNames(num)[i] != ColumnNames(num)[j]
  {
    var names := ColumnNames(num);
    forall i, j | 0 <= i < j < |names|
      ensures names[i] != names[j]
    {
      if j >= 3 {
        assert names[j] == PhenomenonColumnName(j - 2);
        if i >= 3 {
          assert names[i] == PhenomenonColumnName(i - 2);
          PhenomenonColumnNamesDistinct(i - 2, j - 2);
        } else {
          PhenomenonColumnNameNotFixed(j - 2);
          assert names[i] in ["datetime", "quantite_precipitations", "temperature_instant"];
        }
      }
    }
  }

  /** A phenomenon id with no alert in the table gets the default level in
      every row. */
  lemma NoAlertsAllDefault<M>(hourly: seq<Observation<M>>, alerts: seq<Alert>, num: int, id: int)
    requires forall k :: 0 <= k < |hourly| ==> Calendar.InPandasRange(hourly[k].time)
    requires 1 <= id <= PhenomenonCount(num)
    requires forall i :: 0 <= i < |alerts| ==> alerts[i].phenomenon != id
    ensures forall k :: 0 <= k < |hourly| ==>
              CreateWeatherPhenomenaDataset(hourly, alerts, num).rows[k].phenomena[id - 1] == DefaultLevel
  {
  }

  /** An alert of another phenomenon, inserted anywhere in the alert
      table, leaves column `phenomene_<id>` unchanged. */
  lemma OtherPhenomenonIgnored<M>(hourly: seq<Observation<M>>, a: seq<Alert>, x: Alert, b: seq<Alert>,
                                  num: int, id: int)
    requires forall k :: 0 <= k < |hourly| ==> Calendar.InPandasRange(hourly[k].time)
    requires 1 <= id <= PhenomenonCount(num)
    requires x.phenomenon != id
    ensures forall k :: 0 <= k < |hourly| ==>
              CreateWeatherPhenomenaDataset(hourly, a + [x] + b, num).rows[k].phenomena[id - 1]
              == CreateWeatherPhenomenaDataset(hourly, a + b, num).rows[k].phenomena[id - 1]
  {
    forall k | 0 <= k < |hourly| {
      IrrelevantAlertIgnored(a, x, b, id, hourly[k].time);
    }
  }
}
