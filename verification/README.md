# Solar As-Produced Calculator: a Dafny model of its billing transform

The calculator reads a customer's metered load profile. Each row holds:

- a timestamp;
- an hour of the day from 1 to 24;
- a spot (WESM) price;
- the energy in kWh.

It bills that energy under a solar supply contract. A 24-entry guarantee
curve says what percent of each hour's energy counts as solar. The run goes
through these steps:

1. It refuses a curve with a percent outside 0..100. It clips that curve
   into range and stops before computing anything.
2. It joins each load row to the curve by hour.
3. It splits the row's energy into a solar part and a non-solar part. The
   solar part is priced at the solar rate plus line rental. The non-solar
   part is priced at the spot price plus an admin fee.
4. It assigns each row a supply period. A period runs from the 26th of one
   month to the 25th of the next and is labelled by the month and two-digit
   year of its end.
5. It produces two tables:
   - the detailed charges, sorted by timestamp;
   - a summary with one row per supply period and an effective rate per
     kWh. The periods are in chronological order, and a grand-total row
     comes last.

The modules follow those steps:

- `Calendar` (calendar.dfy): dates and timestamps, plus the day replacement
  and one-month offsets the period computation uses.
- `SupplyPeriod` (supply_period.dfy): the period resolver, the two-part label
  and the key the summary is sorted by.
- `Guarantee` (guarantee.dfy): the curve, its range check and the in-place
  clip of the percent column, and the lookup the hour join performs.
- `Charges` (charges.dfy): the left join, the per-row energy split and
  charges, and the detailed table and its sort.
- `Aggregation` (aggregation.dfy): the pivot by period, effective rates,
  chronological order and the grand total.
- `Pipeline` (pipeline.dfy): one run, from the curve check to both tables.
- `Wrappers` (wrappers.dfy): `Option`, which stands for a pandas missing
  value (NaN) or for a step that produces no result.

Energies, prices and charges are exact `real`s. A curve cell left empty in
the editor is `None`; it is neither below 0 nor above 100, so it passes the
range check and the clip leaves it empty. A load row gets no percent (`None`)
when the curve lacks its hour or that hour's cell is empty. Such a row's
computed columns are all missing. The summary still counts its kWh and adds
nothing to the other columns, because the sum skips missing values. A
period whose energy sums to zero has no effective rate (`None`), since that
division is over whole columns and gives NaN or inf. The grand-total rate is
a division of two plain numbers instead, so a load whose energy sums to zero
makes the run fail there.

## Model

| member | source | states |
|---|---|---|
| Guarantee.CurveFrom | Solar_As_Produced_Calculator.py:23-26 | the curve table pairs hour k+1 with the k-th percent |
| Guarantee.CurveHoursExact | Solar_As_Produced_Calculator.py:24 | a 24-percent curve has exactly the hours 1..24, no two rows sharing an hour |
| Guarantee.Clip | Solar_As_Produced_Calculator.py:43 | a clipped percent lies in [0,100]; an in-range one is unchanged; below 0 becomes 0; above 100 becomes 100 |
| Guarantee.ClipCell | Solar_As_Produced_Calculator.py:40-43 | a clipped cell is never out of range; an empty cell stays empty; a cell not out of range is unchanged; a filled cell is clipped |
| Guarantee.ClipAllProperties | Solar_As_Produced_Calculator.py:40-44 | after clipping no cell is out of range; a curve with no cell out of range is left as it was; clipping twice equals clipping once |
| Guarantee.ClipInPlace | Solar_As_Produced_Calculator.py:43 | the array afterwards is the cell-by-cell clip of its old contents, none out of range, with every cell that was not out of range unchanged |
| Guarantee.MatchesConsecutive | Solar_As_Produced_Calculator.py:47 | in a table whose hours count up by one, an hour matches exactly one row if it is in range and no row otherwise |
| Guarantee.MatchesOnCurve | Solar_As_Produced_Calculator.py:47 | joining on the curve finds exactly one row, hour h's own cell, for h in 1..24, and nothing for any other hour |
| Charges.JoinRow | Solar_As_Produced_Calculator.py:47 | a left join yields one row per matching curve row, carrying that row's cell, or exactly one row without a percent when nothing matches; every output row keeps the load row |
| Charges.LeftJoinOnCurve | Solar_As_Produced_Calculator.py:47 | joined to a curve table, the load keeps its length and order, and each row gets its own hour's cell (none outside the table) |
| Charges.SplitCharges | Solar_As_Produced_Calculator.py:65-69 | solar·100 = kWh·percent; solar + non-solar = kWh; solar charge = solar·(solar rate + line rental); non-solar charge = non-solar·(spot price + admin fee); total = solar charge + non-solar charge; for kWh ≥ 0 and percent in [0,100] both parts lie in [0, kWh] |
| Charges.BlendedRate | Solar_As_Produced_Calculator.py:65-69 | a row's total charge is its energy times the percent-weighted blend of the solar and non-solar prices |
| Charges.ComputeCharges | Solar_As_Produced_Calculator.py:65-84 | one charged row per joined row; computed columns exactly where a percent was found, each balancing energy and charges; every row gets a valid label and a period end on or after its timestamp |
| Charges.SortedIsChronological | Solar_As_Produced_Calculator.py:89 | a table sorted by the timestamp key is in calendar order |
| Charges.InsertByDatetime | Solar_As_Produced_Calculator.py:89 | inserting into a sorted table keeps it sorted and adds exactly that row |
| Charges.SortByDatetime | Solar_As_Produced_Calculator.py:89 | the detailed table comes out sorted by timestamp and is a permutation of the input rows |
| Calendar.DaysInMonth | Solar_As_Produced_Calculator.py:78 | month lengths lie between 28 and 31, and a month has 29 days exactly when it is a leap February |
| Calendar.AddMonth | Solar_As_Produced_Calculator.py:78 | one month on is the next month; the day is kept when it is at most 28, else cut to the month's end |
| Calendar.SubMonth | Solar_As_Produced_Calculator.py:81 | one month back is the previous month; the day is kept when it is at most 28, else cut to the month's end |
| Calendar.StampOrder | Solar_As_Produced_Calculator.py:89 | for valid timestamps, comparing the integer key is comparing in calendar order |
| SupplyPeriod.FormatLabel | Solar_As_Produced_Calculator.py:82 | the label keeps the month and the year modulo 100 |
| SupplyPeriod.ParseYear | Solar_As_Produced_Calculator.py:103 | a two-digit year is read back as the one year in 1969..2068 with those last two digits |
| SupplyPeriod.LabelKeyInjective | Solar_As_Produced_Calculator.py:103-106 | distinct labels have distinct sort keys |
| SupplyPeriod.LabelRoundTrip | Solar_As_Produced_Calculator.py:103 | for years 1969..2068, parsing a formatted label gives the first day of the same month |
| SupplyPeriod.LabelOrderIsChronological | Solar_As_Produced_Calculator.py:103-106 | for period ends in 1969..2068, label order is the chronological order of the end months |
| SupplyPeriod.LabelWindowLimits | Solar_As_Produced_Calculator.py:103-106 | outside that window labels collide (1968 and 2068) and misorder (January 2069 sorts before December 2068) |
| SupplyPeriod.PeriodBounds | Solar_As_Produced_Calculator.py:76-81 | in both branches: the start is a 26th, the end the 25th of the next month, and the date lies between them |
| SupplyPeriod.GetSupplyPeriod | Solar_As_Produced_Calculator.py:75-82 | the end is the period end of the input's date (the first 25th on or after it, see below), a valid timestamp at the input's time of day and not before it; the label is that of the end date |
| SupplyPeriod.PeriodEndMonth | Solar_As_Produced_Calculator.py:76-81 | the period ends in the date's own month up to day 25 and in the next month from day 26, so a calendar month's dates get one of two labels |
| SupplyPeriod.PeriodEndExplicit | Solar_As_Produced_Calculator.py:76-81 | the end is the 25th of the same month for day ≤ 25; otherwise the 25th of the next month, December going to January of the next year |
| SupplyPeriod.PeriodEndIsFirst25th | Solar_As_Produced_Calculator.py:75-82 | the period end is the earliest 25th on or after the date |
| SupplyPeriod.SamePeriodIff | Solar_As_Produced_Calculator.py:75-82 | two dates share a period exactly when the second lies between the first's period start and end, both included |
| SupplyPeriod.SplitBetween25And26 | Solar_As_Produced_Calculator.py:76-81 | days 25 and 26 of a month fall in consecutive periods, including the December rollover |
| SupplyPeriod.BoundaryExamples | Solar_As_Produced_Calculator.py:75-82 | 2024-01-25 is in Jan-24, 2024-01-26 in Feb-24, and 2024-12-26 in Jan-25 ending 2025-01-25 |
| Aggregation.EffectiveRate | Solar_As_Produced_Calculator.py:100 | a rate exists exactly when the energy is non-zero, and rate × energy = total charge |
| Aggregation.InsertLabel | Solar_As_Produced_Calculator.py:103-106 | inserting a label into a chronological list keeps it chronological and adds exactly that label |
| Aggregation.SortedLabels | Solar_As_Produced_Calculator.py:93-106 | the summary's index is strictly chronological and holds exactly the labels present |
| Aggregation.ChronologicalUnique | Solar_As_Produced_Calculator.py:106 | two chronological lists of the same labels are equal, so the summary order is determined by the labels alone |
| Aggregation.PartitionSum | Solar_As_Produced_Calculator.py:93-113 | summing the period sums over labels that cover the table gives the sums over all rows: each row counts in exactly one period |
| Aggregation.SumWhereBalanced | Solar_As_Produced_Calculator.py:93-97 | a period's summed total is its summed solar charge plus non-solar charge; with every percent found, its summed solar plus non-solar equals its summed kWh |
| Aggregation.GroupByPeriod | Solar_As_Produced_Calculator.py:93-97 | one pass gives each label present the sums over exactly its rows, and lists the labels chronologically |
| Aggregation.Summarize | Solar_As_Produced_Calculator.py:93-117 | there is no summary exactly when the rows' energy sums to zero (the grand-total rate raises); otherwise it is the period rows in chronological order, then the grand total of those rows, which equals the sums over every row and has a rate |
| Aggregation.PeriodRows | Solar_As_Produced_Calculator.py:93-100 | given each label's pivot sums, builds exactly one row per label in the given order, with its sums and effective rate, and their column total |
| Aggregation.SummaryRows | Solar_As_Produced_Calculator.py:93-117 | one row per label present, each with its own rows' sums and effective rate; the last row is the grand total over all rows |
| Aggregation.SummaryOrder | Solar_As_Produced_Calculator.py:103-106 | every label present has its row, and the period rows come in strictly ascending label order |
| Aggregation.GrandTotalIsSumAll | Solar_As_Produced_Calculator.py:112-117 | the grand total of the period rows equals the sums over the whole charge table, and there is one period row per label |
| Pipeline.Charged | Solar_As_Produced_Calculator.py:47-84 | the charge table has one row per load row, in order, each priced with its own hour's percent |
| Pipeline.ChargedRowsOnCurve | Solar_As_Produced_Calculator.py:47-84 | on the 24-hour curve, a row has computed columns exactly when its hour is in 1..24 and that hour's cell is filled in, and they are split by that percent; every row gets its timestamp's period |
| Pipeline.Calculate | Solar_As_Produced_Calculator.py:40-117 | the run halts, with the clipped curve, exactly when a percent is out of range; it fails exactly when the curve is in range and the load profile is empty (the two-column unpacking of line 84 raises) or its energy sums to zero (the grand-total rate of line 114 divides by zero), with the cause told apart; otherwise the detailed table is a timestamp-sorted permutation of the charged rows and the summary is the chronological period table plus the grand total, which has a rate |
| Pipeline.SingleRowSummary | Solar_As_Produced_Calculator.py:93-117 | a one-row table gives one period row with that row's sums and a grand total equal to it |
| Pipeline.OneRowExample | Solar_As_Produced_Calculator.py:65-117 | 10 kWh at hour 8 (29%), spot 5, rates 2/1/0.5 gives 2.9 and 7.1 kWh, charges 8.7 and 39.05, total 47.75 and rate 4.775 in Mar-24 and in the grand total |

## Left out

- The Streamlit interface (page, uploader, curve editor, number inputs, button, expanders, warnings) is left out. The model starts from the uploaded rows, the edited curve and the three rates.
- Reading the Excel upload, writing the Excel download and the area chart are file I/O and display, so they are left out.
- Parsing the datetime column is left out: timestamps arrive as valid (year, month, day, seconds-of-day) values. Sub-second time, time zones and pandas' timestamp range are not modelled, and years are unbounded.
- Floating point is left out: arithmetic is exact over `real`, so a period's zero-energy rate is `None` instead of inf or NaN, and whether a total energy is exactly zero is decided without rounding.
- Blank kWh or wesm cells in the uploaded load profile are not modelled: every load row carries a number in both.
- A load hour the curve lacks is not rejected: the row stays, with missing computed columns, and the model represents the missing values as `None`.
- Pipeline.Calculate: `Halted.clipped` stands for the clipped copy of the percent column, a value the program computes and then throws away; the editor keeps the values as entered and only a warning is shown.
- Charges.SortByDatetime: it promises only a sorted permutation, not stability, because pandas' default sort does not keep the order of rows with equal timestamps.
- The curve table's own column edits beyond its percents (renaming or re-typing the hour column) are not modelled: the edited curve is the 24 percents of hours 1..24.
- Labels are (month, two-digit year) pairs rather than text such as "Mar-24". Month names and locale are not modelled.
