# Weather-phenomena enrichment join, in Dafny

This project models `create_weather_phenomena_dataset` from
`services/predict-weather/script-dataset.py`. The function joins hourly
weather observations with weather-alert ("vigilance") intervals. The result
is one dense table with these columns:

- `datetime`: the observation instant, rendered as `YYYY-MM-DD HH:MM:SS` in UTC;
- `quantite_precipitations` and `temperature_instant`: copied unchanged;
- `phenomene_1` .. `phenomene_<num>`: one column per phenomenon id.

For every phenomenon id and every observation instant `t`, the cell holds the
level of the first alert of that phenomenon, in alert-table order, whose closed
interval `[date_debut, date_fin]` contains `t`. It holds 1 ("no alert") when no
such alert exists. A missing level (NaN) is filled with 1 as well.

Modules (one file each):

- `Wrappers` (`wrappers.dfy`): `Option`, which stands for a cell that may hold NaN/NaT.
- `Decimal` (`decimal.dfy`): zero-padded and minimal decimal digit strings, with their read-back.
- `Calendar` (`calendar.dfy`): the proleptic Gregorian calendar in UTC. It converts whole seconds since
  the epoch to year/month/day/hour/minute/second and back. This is the conversion `strftime` relies on.
- `TimestampFormat` (`timestamp_format.dfy`): the `%Y-%m-%d %H:%M:%S` rendering and its inverse.
- `Vigilance` (`vigilance.dfy`): the per-phenomenon partition of the alert table (line 144), the
  per-row lookup `get_vigilance` (lines 153-167), and the resolved cell after `fillna(1)`.
- `Enrichment` (`enrichment.dfy`): the table itself, with its header, columns, rows and the default fill.
- `Scenarios` (`scenarios.dfy`): worked examples on concrete instants of 2023-06-15.

How source values are represented:

- Instants are `int` seconds since 1970-01-01 00:00:00 UTC.
- Alert levels are `Option<int>`; `None` is NaN.
- Precipitation and temperature are an opaque type parameter `M`. The code only carries them through.
- The column-name parameters take the values the script passes at lines 185-196.

The reference meaning of a cell is stated by two predicates on the whole alert
table: `Vigilance.IsFirstCover` (alert `i` is the earliest alert of phenomenon
`id` covering `t`) and `Vigilance.Uncovered` (no alert of `id` covers `t`). The
table, the per-cell scan and the lookup are all proved against these two predicates.

Facts about the code that the model keeps:

- The code does not reject an alert whose start is after its end. Such an alert never matches, so the
  cell gets the default (`Scenarios.ReversedIntervalMatchesNothing`).
- The lookup scans the alerts of one phenomenon in alert-table order and takes the first match.
- The phenomenon ids are the range 1..`num_phenomena`. A `num_phenomena` below 1 gives no phenomenon column.

## Model

| member | source | states |
|---|---|---|
| Decimal.Pad | services/predict-weather/script-dataset.py:177 | a `%Y`/`%m`/`%d`/`%H`/`%M`/`%S` field is written with exactly the field's width, all digits; `Decimal.ValueOfPad` and `Decimal.PadOfValue` make it the zero-padded form of the number |
| Decimal.Dec | services/predict-weather/script-dataset.py:141 | the id in an f-string is written with at least one digit, no leading zero unless it is 0, and reads back as the id |
| Decimal.ValueOfPad | services/predict-weather/script-dataset.py:177 | a zero-padded field reads back as the number that was written |
| Decimal.PadOfValue | services/predict-weather/script-dataset.py:177 | every digit string is the zero-padded rendering of its own value at its own width, so fixed-width fields lose nothing |
| Decimal.DecInjective | services/predict-weather/script-dataset.py:141 | two ids have the same decimal text iff they are equal |
| Calendar.DateFromDays | services/predict-weather/script-dataset.py:177 | the date of a day count is a valid calendar date (month 1..12, day within the month's length, leap years included) that counts back to the same day |
| Calendar.DaysFromCivilInjective | services/predict-weather/script-dataset.py:177 | two valid dates with the same day count are the same date |
| Calendar.DateRoundTrip | services/predict-weather/script-dataset.py:177 | converting a valid date to a day count and back returns that date |
| Calendar.FromSeconds | services/predict-weather/script-dataset.py:177 | the UTC wall-clock fields of an instant form a valid date and time that converts back to the same instant |
| Calendar.ToSecondsInjective | services/predict-weather/script-dataset.py:177 | distinct valid dates and times are distinct instants |
| Calendar.FromSecondsRoundTrip | services/predict-weather/script-dataset.py:177 | every valid date and time is the field set of the instant it converts to (uniqueness of that instant is `Calendar.FromSecondsInjective`) |
| Calendar.FromSecondsInjective | services/predict-weather/script-dataset.py:177 | two instants have equal fields iff they are equal |
| Calendar.PandasRangeYears | services/predict-weather/script-dataset.py:177 | every instant a `datetime64[ns]` can hold lies in a year from 1677 to 2262, so `%Y` prints four digits |
| TimestampFormat.Format | services/predict-weather/script-dataset.py:177 | the rendering is 19 characters, with '-' at 4 and 7, ' ' at 10, ':' at 13 and 16, and a digit everywhere else |
| TimestampFormat.Parse | services/predict-weather/script-dataset.py:177 | a string that reads back as a date and time is well shaped, and the date and time are valid with a four-digit year |
| TimestampFormat.ParseFormat | services/predict-weather/script-dataset.py:177 | reading a rendering back gives the original fields |
| TimestampFormat.FormatParse | services/predict-weather/script-dataset.py:177 | the only string that reads back as a date and time is its rendering, so the format is canonical |
| TimestampFormat.Render | services/predict-weather/script-dataset.py:177 | the `datetime` text of an instant is well shaped and reads back as that instant's UTC fields |
| TimestampFormat.RenderInjective | services/predict-weather/script-dataset.py:177 | two instants pandas can hold render to the same text iff they are equal |
| Vigilance.OfPhenomenon | services/predict-weather/script-dataset.py:144 | the partition holds exactly the alerts of the table with that phenomenon id, and is no longer than the table |
| Vigilance.Matching | services/predict-weather/script-dataset.py:160-163 | the mask keeps exactly the alerts with start <= t <= end, both ends included |
| Vigilance.MatchingHead | services/predict-weather/script-dataset.py:164-166 | `matching.iloc[0]` is the earliest alert in order whose interval holds t, and the match is empty iff no interval holds t |
| Vigilance.GetVigilance | services/predict-weather/script-dataset.py:153-167 | the lookup returns the (possibly missing) level of the earliest covering alert, or 1 when none covers t |
| Vigilance.MatchingOfPhenomenon | services/predict-weather/script-dataset.py:144-166 | filtering by phenomenon and then by coverage finds, at its head, the earliest covering alert of that phenomenon in the whole table; the result is empty iff no alert of that phenomenon covers t |
| Vigilance.FirstCoverExists | services/predict-weather/script-dataset.py:164-167 | some alert of the phenomenon covers t iff there is an earliest one |
| Vigilance.Lookup | services/predict-weather/script-dataset.py:144-167 | before the fill, a cell is the level of the earliest covering alert of its phenomenon (possibly missing), or Some(1) when none covers t, short cut included |
| Vigilance.Resolve | services/predict-weather/script-dataset.py:144-174 | a finished cell is the level of the earliest covering alert of its phenomenon, 1 if that level is missing, and 1 when no alert of the phenomenon covers t; it is never the level of an alert other than the earliest one |
| Vigilance.ScanLevel | services/predict-weather/script-dataset.py:153-174 | a direct scan of the whole alert table that stops at the first alert of the phenomenon whose interval holds t yields exactly the finished cell |
| Vigilance.SoleAlert | services/predict-weather/script-dataset.py:160-163 | for a phenomenon with a single alert, the cell is its level exactly when start <= t <= end, boundaries included, and 1 otherwise |
| Vigilance.ShortCutAgrees | services/predict-weather/script-dataset.py:147-149 | the all-ones short cut for a phenomenon without alerts equals what the lookup gives on its empty partition |
| Vigilance.OfPhenomenonConcat | services/predict-weather/script-dataset.py:144 | partitioning distributes over concatenation of alert tables, so relative order is kept |
| Vigilance.MatchingConcat | services/predict-weather/script-dataset.py:160-163 | the coverage mask distributes over concatenation, so relative order is kept |
| Vigilance.IrrelevantAlertIgnored | services/predict-weather/script-dataset.py:144-163 | inserting, anywhere in the table, an alert of another phenomenon or one not covering t (for instance start > end) changes neither the raw nor the filled cell |
| Enrichment.PhenomenonColumnName | services/predict-weather/script-dataset.py:141 | `f'phenomene_{phenom_id}'` is the prefix `phenomene_` followed by digits that read back as the id |
| Enrichment.ColumnNames | services/predict-weather/script-dataset.py:136-141 | the header is `datetime`, `quantite_precipitations`, `temperature_instant`, then `phenomene_1` .. `phenomene_<num>` in id order: 3 + max(num, 0) columns, so cell j of a row sits under `phenomene_<j+1>` |
| Enrichment.ColumnNamesDistinct | services/predict-weather/script-dataset.py:137-141 | no two columns of the table share a name |
| Enrichment.PhenomenonColumn | services/predict-weather/script-dataset.py:140-170 | column `phenomene_<id>`, built with the short cut or with the per-row lookup, has one cell per observation, and each cell is the lookup of its instant |
| Enrichment.FillMissing | services/predict-weather/script-dataset.py:172-174 | `fillna(1)` keeps every present level and replaces every missing one with 1, row count unchanged |
| Enrichment.FilledColumn | services/predict-weather/script-dataset.py:140-174 | every cell of a finished phenomenon column is the resolved level of its row's instant |
| Enrichment.PhenomenonColumns | services/predict-weather/script-dataset.py:140-174 | there is exactly one finished column per phenomenon id 1..n, in id order |
| Enrichment.EnrichedRow | services/predict-weather/script-dataset.py:177 | a row copies precipitation and temperature unchanged and holds the instant's rendering under `datetime` |
| Enrichment.EnrichedRows | services/predict-weather/script-dataset.py:136-137 | one row per observation, in order, with measurements copied and the instant rendered |
| Enrichment.RowCellsResolved | services/predict-weather/script-dataset.py:140-174 | turning the per-phenomenon columns into rows puts, in cell j of row k, the finished level of phenomenon j + 1 at the instant of observation k |
| Enrichment.CreateWeatherPhenomenaDataset | services/predict-weather/script-dataset.py:93-179 | the table has the fixed header, exactly one row per observation in the same order, precipitation and temperature unchanged, a well-shaped `datetime` that reads back as the observation's instant, and one value in each row for every phenomenon 1..num, equal to the resolved level |
| Enrichment.NoAlertsAllDefault | services/predict-weather/script-dataset.py:144-149 | a phenomenon without any alert gets 1 in every row |
| Enrichment.OtherPhenomenonIgnored | services/predict-weather/script-dataset.py:144 | inserting an alert of another phenomenon anywhere in the table leaves column `phenomene_<id>` unchanged in every row |
| Scenarios.CoveredRow | services/predict-weather/script-dataset.py:160-163 | any row from 08:00:00 to 12:00:00, boundaries included, gets level 3 from the one phenomenon-2 alert, and phenomenon 4, which has no alert, gets 1 |
| Scenarios.InclusiveEnds | services/predict-weather/script-dataset.py:160-163 | both interval ends match, and one second before the start or after the end gets the default |
| Scenarios.ReversedIntervalMatchesNothing | services/predict-weather/script-dataset.py:160-163 | an interval whose start is after its end is not rejected and matches nothing |
| Scenarios.FirstInTableWins | services/predict-weather/script-dataset.py:164-166 | of two overlapping alerts, the earlier in the table wins whatever their levels, so the rule is neither max nor min |
| Scenarios.MissingLevelFilled | services/predict-weather/script-dataset.py:166-174 | a matching alert whose level is missing yields NaN from the lookup and 1 after the fill |
| Scenarios.FormattedFields | services/predict-weather/script-dataset.py:177 | 2023-06-15 10:00:00 renders as "2023-06-15 10:00:00" |
| Scenarios.RenderedInstant | services/predict-weather/script-dataset.py:177 | the only text that reads back as the instant 2023-06-15 10:00:00 UTC is "2023-06-15 10:00:00" |

## Left out

- `load_and_filter_data` (lines 16-73) is left out: CSV reading, name-based column detection,
  `pd.to_datetime` parsing, timezone localisation, and the date-range, department and column filters.
  The model starts from the filtered tables that function returns.
- Alert interval ends are assumed to be UTC instants comparable with the observation instants.
  `load_and_filter_data` converts to UTC only the one column it detects (lines 44, 52-57). Every other
  `date` column, and so at least one of `date_debut_vigilance` / `date_fin_vigilance`, only goes through
  `pd.to_datetime` (lines 47-49). When that column is timezone-naive, the comparisons at lines 161-162
  against the timezone-aware instant raise a `TypeError`. The model has no such error path:
  `Alert.start` and `Alert.end` are plain seconds since the epoch in UTC.
- The module-level script (lines 1-14, 75-90, 182-216) is left out: file paths, `print` output and the `to_csv` export are I/O.
- `services/predict-delays/train/model_building/pipeline.py`, `app.py` and `train.py` are left out:
  they wrap scikit-learn, XGBoost, FastAPI and joblib and do not take part in the join.
- Sub-second precision is not modelled: instants are whole seconds. `%S` prints only whole seconds,
  so the rendering is the same. The coverage test at lines 161-162 is not the same: an observation a
  fraction of a second after `date_fin` is not covered in the code, but after rounding both down to
  whole seconds it is covered in the model. The same happens a fraction of a second before `date_debut`
  when both round down to the same second.
- Alerts with a missing start or end (NaT) are not a separate case. Comparisons with NaT are false,
  so such an alert behaves like one with start > end, which the model covers.
- The numeric type of a phenomenon column is not modelled. pandas stores it as float64 when NaN occurred,
  which changes how the CSV prints it, not its values.
- Output column names are fixed to the values passed at lines 185-196. The function's renaming
  parameters are not modelled.
- Enrichment.CreateWeatherPhenomenaDataset: requires every observation instant to lie in the range a
  `datetime64[ns]` can hold. That range is what keeps `%Y` at four digits; pandas cannot represent instants outside it.
