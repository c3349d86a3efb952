/** One run of the calculator once the load profile is loaded and the
    guarantee curve edited: the range check on the curve, then the join, the
    charges, the detailed table and the summary by supply period. */
module Pipeline {
  import opened Wrappers
  import opened Calendar
  import opened SupplyPeriod
  import opened Guarantee
  import opened Charges
  import opened Aggregation

  /** Why a run raises before its summary is shown. */
  datatype Failure =
    | EmptyLoad        // splitting the supply-period pairs of zero rows into two columns
    | ZeroTotalEnergy  // the grand-total rate divides by a zero total kWh

  /** How a run ends. `Halted` stops at the range check; `clipped` is the
      clipped copy of the percent column, which the program computes and then
      discards (the editor keeps the values as entered). `Failed` is a run that
      raises, so no summary is produced. `Done` carries both tables. */
  datatype RunOutcome =
    | Halted(clipped: seq<Option<real>>)
    | Failed(cause: Failure)
    | Done(detailed: seq<DetailedRow>, summary: seq<SummaryRow>)

  /** The charge table: the load rows joined to the curve by hour, priced and
      given their supply period. */
  function Charged(load: seq<LoadRow>, percents: seq<Option<real>>, t: Tariff): (r: seq<ChargedRow>)
    requires AllDatetimesValid(load)
    ensures |r| == |load|
    ensures forall i :: 0 <= i < |r| ==>
              r[i] == ChargeRow(JoinedRow(load[i], PercentForHour(percents, load[i].hour)), t)
  {
    LeftJoinOnCurve(load, percents);
    ComputeCharges(LeftJoin(load, CurveFrom(percents)), t)
  }

  /** On the 24-hour curve, a row of hour 1..24 whose cell is filled in is
      split by that percent; a row of any other hour, or of an hour whose cell
      is empty, carries no computed columns; every row gets the supply period
      of its timestamp. */
  lemma ChargedRowsOnCurve(load: seq<LoadRow>, percents: seq<Option<real>>, t: Tariff, i: int)
    requires AllDatetimesValid(load) && |percents| == HOURS && 0 <= i < |load|
    ensures Charged(load, percents, t)[i].load == load[i]
    ensures Charged(load, percents, t)[i].period == GetSupplyPeriod(load[i].datetime)
    ensures Charged(load, percents, t)[i].split.Some? <==>
              1 <= load[i].hour <= HOURS && percents[load[i].hour - 1].Some?
    ensures Charged(load, percents, t)[i].split.Some? ==>
              Charged(load, percents, t)[i].split ==
                Some(SplitCharges(load[i].kwh, percents[load[i].hour - 1].value, load[i].wesm, t))
  {
  }

  /** The run after the "Calculate Charges" button. The curve is copied into
      the column that the range check clips in place; an out-of-range percent
      stops the run there, before any charge is computed. An empty load
      profile fails where the period columns are assigned, and a load whose
      energy sums to zero fails at the grand-total rate. */
  method Calculate(load: seq<LoadRow>, percents: seq<Option<real>>, t: Tariff) returns (out: RunOutcome)
    requires |percents| == HOURS
    requires AllDatetimesValid(load)
    ensures out.Halted? <==> AnyOutOfRange(percents)
    ensures out.Failed? <==>
              !AnyOutOfRange(percents) && (|load| == 0 || SumAll(Charged(load, percents, t)).kwh == 0.0)
    ensures out.Failed? ==> (out.cause == EmptyLoad <==> |load| == 0)
    ensures out.Halted? ==> out.clipped == ClipAll(percents) && !AnyOutOfRange(out.clipped)
    ensures out.Done? ==>
              |out.detailed| == |load| &&
              SortedByDatetime(out.detailed) &&
              multiset(out.detailed) == multiset(DetailAll(Charged(load, percents, t)))
    ensures out.Done? ==>
              out.summary == SummaryFor(Charged(load, percents, t), SortedLabels(Charged(load, percents, t))) &&
              out.summary[|out.summary| - 1] == GrandRow(SumAll(Charged(load, percents, t))) &&
              out.summary[|out.summary| - 1].rate.Some?
  {
    var column := new Option<real>[HOURS](h requires 0 <= h < HOURS => percents[h]);
    assert column[..] == percents;
    if AnyOutOfRange(column[..]) {
      ClipInPlace(column);
      var clipped := column[..];
      assert clipped == ClipAll(percents);
      return Halted(clipped);
    }
    if |load| == 0 {
      return Failed(EmptyLoad);
    }
    var charged := Charged(load, column[..], t);
    assert forall i :: 0 <= i < |charged| ==> ValidLabel(charged[i].period.name);
    var detailed := SortByDatetime(DetailAll(charged));
    var summary := Summarize(charged);
    if summary.None? {
      return Failed(ZeroTotalEnergy);
    }
    out := Done(detailed, summary.value);
  }

  /** A table of one row has one period row, carrying that row's own sums, and
      a grand total equal to it. */
  lemma SingleRowSummary(r: ChargedRow)
    requires ValidLabel(r.period.name)
    ensures var p := SummaryRow(PeriodRow(r.period.name), Contribution(r), EffectiveRate(Contribution(r)));
            SummaryFor([r], SortedLabels([r])) == [p, GrandRow(Contribution(r))]
  {
    var rows, l, c := [r], r.period.name, Contribution(r);
    assert rows[..0] == [];
    assert SortedLabels(rows) == [l];
    assert SumWhere(rows, l) == Add(ZERO, c) == c;
    var periods := PeriodRowsFor(rows, [l]);
    assert periods == [SummaryRow(PeriodRow(l), c, EffectiveRate(c))];
    assert periods[..0] == [];
    assert SumRows(periods) == Add(ZERO, c);
  }

  /** A single 10 kWh row at hour 8 of the default curve (29%), with a spot
      price of 5 and rates 2, 1 and 0.5: 2.9 kWh solar charged 8.7, 7.1 kWh
      non-solar charged 39.05, 47.75 in all; its period and the grand total
      both have an effective rate of 4.775. */
  lemma OneRowExample()
    ensures var load := [LoadRow("Mar", DateTime(Date(2024, 3, 10), 8 * 3600), 8, 5.0, 10.0)];
            var rows := Charged(load, DEFAULT_PERCENTS, Tariff(2.0, 1.0, 0.5));
            && rows[0].split == Some(Split(2.9, 7.1, 8.7, 39.05, 47.75))
            && rows[0].period.name == Label(3, 24)
            && SummaryFor(rows, SortedLabels(rows)) ==
                 [SummaryRow(PeriodRow(Label(3, 24)), Sums(10.0, 2.9, 7.1, 8.7, 39.05, 47.75), Some(4.775)),
                  SummaryRow(GrandTotal, Sums(10.0, 2.9, 7.1, 8.7, 39.05, 47.75), Some(4.775))]
  {
    var t := Tariff(2.0, 1.0, 0.5);
    var row := LoadRow("Mar", DateTime(Date(2024, 3, 10), 8 * 3600), 8, 5.0, 10.0);
    var load := [row];
    var rows := Charged(load, DEFAULT_PERCENTS, t);
    ChargedRowsOnCurve(load, DEFAULT_PERCENTS, t, 0);
    assert DEFAULT_PERCENTS[7] == Some(29.0);
    var split := SplitCharges(10.0, 29.0, 5.0, t);
    assert split == Split(2.9, 7.1, 8.7, 39.05, 47.75);
    assert rows[0].period == GetSupplyPeriod(row.datetime);
    assert rows[0].period.name == Label(3, 24);
    assert rows == [rows[0]];
    assert Contribution(rows[0]) == Sums(10.0, 2.9, 7.1, 8.7, 39.05, 47.75);
    assert EffectiveRate(Contribution(rows[0])) == Some(4.775);
    SingleRowSummary(rows[0]);
    var r0 := rows[0];
    assert SummaryFor(rows, SortedLabels(rows)) == SummaryFor([r0], SortedLabels([r0]));
  }
}
