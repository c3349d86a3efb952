/** The summary by supply period: the charge table grouped by period label,
    each numeric column summed, an effective rate per period, the periods in
    chronological order, and a grand-total row appended last. */
module Aggregation {
  import opened Wrappers
  import opened SupplyPeriod
  import opened Charges

  /** The six summed columns of a summary row. */
  datatype Sums = Sums(kwh: real, solar: real, nonSolar: real, solarCharge: real, nonSolarCharge: real, total: real)

  const ZERO := Sums(0.0, 0.0, 0.0, 0.0, 0.0, 0.0)

  function Add(a: Sums, b: Sums): Sums {
    Sums(a.kwh + b.kwh, a.solar + b.solar, a.nonSolar + b.nonSolar,
         a.solarCharge + b.solarCharge, a.nonSolarCharge + b.nonSolarCharge, a.total + b.total)
  }

  /** What one charged row adds to each column. A row without a percent adds
      its energy, and nothing to the other columns: they are NaN, which the sum skips. */
  function Contribution(r: ChargedRow): Sums {
    match r.split
    case Some(x) => Sums(r.load.kwh, x.solar, x.nonSolar, x.solarCharge, x.nonSolarCharge, x.total)
    case None => Sums(r.load.kwh, 0.0, 0.0, 0.0, 0.0, 0.0)
  }

  /** The column sums over exactly the rows labelled `l`. */
  function SumWhere(rows: seq<ChargedRow>, l: Label): Sums {
    if rows == [] then ZERO
    else
      var last := rows[|rows| - 1];
      Add(SumWhere(rows[..|rows| - 1], l), if last.period.name == l then Contribution(last) else ZERO)
  }

  /** The column sums over all rows. */
  function SumAll(rows: seq<ChargedRow>): Sums {
    if rows == [] then ZERO else Add(SumAll(rows[..|rows| - 1]), Contribution(rows[|rows| - 1]))
  }

  /** The period labels that occur in the charge table. */
  function LabelsOf(rows: seq<ChargedRow>): set<Label> {
    set i | 0 <= i < |rows| :: rows[i].period.name
  }

  /** `total / kWh`, with a zero energy made explicit: pandas gives inf or NaN there. */
  function EffectiveRate(s: Sums): (r: Option<real>)
    ensures r.Some? <==> s.kwh != 0.0
    ensures r.Some? ==> r.value * s.kwh == s.total
  {
    if s.kwh == 0.0 then None else Some(s.total / s.kwh)
  }

  /** The first column of a summary row: a period label or the grand-total marker. */
  datatype RowName = PeriodRow(period: Label) | GrandTotal

  datatype SummaryRow = SummaryRow(name: RowName, sums: Sums, rate: Option<real>)

  /** The column sums of summary rows. */
  function SumRows(table: seq<SummaryRow>): Sums {
    if table == [] then ZERO else Add(SumRows(table[..|table| - 1]), table[|table| - 1].sums)
  }

  function Elems(ls: seq<Label>): set<Label> {
    set l | l in ls
  }

  predicate ValidLabels(ls: seq<Label>) {
    forall i :: 0 <= i < |ls| ==> ValidLabel(ls[i])
  }

  /** Strictly ascending by the parsed label, so also free of duplicates. */
  predicate Chronological(ls: seq<Label>) {
    forall i, j :: 0 <= i < j < |ls| ==> LabelKey(ls[i]) < LabelKey(ls[j])
  }

  /** Adds `l` at its chronological place, unless it is there already. */
  function InsertLabel(ls: seq<Label>, l: Label): (r: seq<Label>)
    requires Chronological(ls) && ValidLabels(ls) && ValidLabel(l)
    ensures Chronological(r) && ValidLabels(r)
    ensures Elems(r) == Elems(ls) + {l}
  {
    if ls == [] then [l]
    else if l == ls[0] then ls
    else if LabelKey(l) < LabelKey(ls[0]) then
      ChronologicalCons(l, ls);
      [l] + ls
    else
      LabelKeyDistinct(l, ls[0]);
      var rest := InsertLabel(ls[1..], l);
      NotInTail(ls);
      ChronologicalCons(ls[0], rest);
      [ls[0]] + rest
  }

  /** A label that comes before every label of a chronological list can be put in front. */
  lemma ChronologicalCons(l: Label, ls: seq<Label>)
    requires Chronological(ls) && ValidLabels(ls) && ValidLabel(l)
    requires forall m :: m in Elems(ls) ==> LabelKey(l) < LabelKey(m)
    ensures Chronological([l] + ls) && ValidLabels([l] + ls)
    ensures Elems([l] + ls) == {l} + Elems(ls)
  {
    var r := [l] + ls;
    forall i, j | 0 <= i < j < |r|
      ensures LabelKey(r[i]) < LabelKey(r[j])
    {
      assert r[j] == ls[j - 1];
      if i == 0 {
        assert ls[j - 1] in Elems(ls);
      } else {
        assert r[i] == ls[i - 1];
      }
    }
  }

  lemma LabelKeyDistinct(a: Label, b: Label)
    requires ValidLabel(a) && ValidLabel(b) && a != b
    ensures LabelKey(a) != LabelKey(b)
  {
    if LabelKey(a) == LabelKey(b) {
      LabelKeyInjective(a, b);
    }
  }

  /** The distinct period labels of the rows in chronological order: the index
      of the pivot table once sorted by its parsed labels. */
  function SortedLabels(rows: seq<ChargedRow>): (ls: seq<Label>)
    requires forall i :: 0 <= i < |rows| ==> ValidLabel(rows[i].period.name)
    ensures Chronological(ls) && ValidLabels(ls)
    ensures Elems(ls) == LabelsOf(rows)
  {
    if rows == [] then []
    else
      var init := rows[..|rows| - 1];
      LabelsOfPrefix(rows, |rows| - 1);
      assert rows[..|rows|] == rows;
      InsertLabel(SortedLabels(init), rows[|rows| - 1].period.name)
  }

  /** Two chronological lists of the same labels are the same list: the sorted
      order of the summary is fully determined by the labels present. */
  lemma {:induction false} ChronologicalUnique(a: seq<Label>, b: seq<Label>)
    requires Chronological(a) && Chronological(b) && Elems(a) == Elems(b)
    ensures a == b
  {
    ElemsEmpty(a);
    ElemsEmpty(b);
    if a != [] && b != [] {
      NotInTail(a);
      NotInTail(b);
      assert a[0] == b[0];
      assert Elems(a[1..]) == Elems(b[1..]);
      ChronologicalUnique(a[1..], b[1..]);
      assert a == [a[0]] + a[1..] && b == [b[0]] + b[1..];
    }
  }

  lemma ElemsEmpty(a: seq<Label>)
    ensures Elems(a) == {} <==> a == []
  {
    if a != [] {
      assert a[0] in Elems(a);
    }
  }

  lemma NotInTail(a: seq<Label>)
    requires Chronological(a) && a != []
    ensures a[0] !in a[1..]
    ensures Elems(a) == {a[0]} + Elems(a[1..])
    ensures forall m :: m in Elems(a[1..]) ==> LabelKey(a[0]) < LabelKey(m)
  {
    assert a == [a[0]] + a[1..];
    forall m | m in Elems(a[1..])
      ensures LabelKey(a[0]) < LabelKey(m)
    {
      var k :| 0 <= k < |a[1..]| && a[1..][k] == m;
      assert a[k + 1] == m;
    }
  }

  /** The summary row of the period labelled `l`. */
  function PeriodSummary(rows: seq<ChargedRow>, l: Label): SummaryRow {
    var s := SumWhere(rows, l);
    SummaryRow(PeriodRow(l), s, EffectiveRate(s))
  }

  function PeriodRowsFor(rows: seq<ChargedRow>, ls: seq<Label>): (t: seq<SummaryRow>)
    ensures |t| == |ls| && forall k :: 0 <= k < |ls| ==> t[k] == PeriodSummary(rows, ls[k])
  {
    seq(|ls|, k requires 0 <= k < |ls| => PeriodSummary(rows, ls[k]))
  }

  /** The grand-total row: its own sums and its own effective rate. */
  function GrandRow(s: Sums): SummaryRow {
    SummaryRow(GrandTotal, s, EffectiveRate(s))
  }

  /** The summary table for a given order of period labels: one row per label,
      then the grand total of those rows. */
  function SummaryFor(rows: seq<ChargedRow>, ls: seq<Label>): seq<SummaryRow> {
    var periods := PeriodRowsFor(rows, ls);
    periods + [GrandRow(SumRows(periods))]
  }

  /** Summing the period sums of every label in a list. */
  function SumOver(rows: seq<ChargedRow>, ls: seq<Label>): Sums {
    if ls == [] then ZERO else Add(SumOver(rows, ls[..|ls| - 1]), SumWhere(rows, ls[|ls| - 1]))
  }

  lemma {:induction false} SumRowsOfPeriods(rows: seq<ChargedRow>, ls: seq<Label>)
    ensures SumRows(PeriodRowsFor(rows, ls)) == SumOver(rows, ls)
  {
    if ls != [] {
      var init := ls[..|ls| - 1];
      assert PeriodRowsFor(rows, ls)[..|ls| - 1] == PeriodRowsFor(rows, init);
      SumRowsOfPeriods(rows, init);
    }
  }

  /** What the row `r` adds to the sums over the labels `ls`: its contribution
      once for every time its label occurs. */
  function Picked(r: ChargedRow, ls: seq<Label>): Sums {
    if ls == [] then ZERO
    else Add(Picked(r, ls[..|ls| - 1]), if r.period.name == ls[|ls| - 1] then Contribution(r) else ZERO)
  }

  lemma {:induction false} SumOverSnoc(rows: seq<ChargedRow>, r: ChargedRow, ls: seq<Label>)
    ensures SumOver(rows + [r], ls) == Add(SumOver(rows, ls), Picked(r, ls))
  {
    if ls != [] {
      var init, l := ls[..|ls| - 1], ls[|ls| - 1];
      SumOverSnoc(rows, r, init);
      assert (rows + [r])[..|rows + [r]| - 1] == rows;
      var here := if r.period.name == l then Contribution(r) else ZERO;
      assert SumWhere(rows + [r], l) == Add(SumWhere(rows, l), here);
      AddInterchange(SumOver(rows, init), Picked(r, init), SumWhere(rows, l), here);
    }
  }

  lemma AddInterchange(a: Sums, b: Sums, c: Sums, d: Sums)
    ensures Add(Add(a, b), Add(c, d)) == Add(Add(a, c), Add(b, d))
  {
  }

  lemma {:induction false} PickedOnce(r: ChargedRow, ls: seq<Label>)
    requires Chronological(ls)
    ensures Picked(r, ls) == if r.period.name in ls then Contribution(r) else ZERO
  {
    if ls != [] {
      var init := ls[..|ls| - 1];
      PickedOnce(r, init);
      assert ls == init + [ls[|ls| - 1]];
      if r.period.name == ls[|ls| - 1] {
        assert r.period.name !in init;
      }
    }
  }

  /** The period sums over a chronological list that holds every label add up
      to the sums over the whole table: each row is counted in exactly one period. */
  lemma {:induction false} PartitionSum(rows: seq<ChargedRow>, ls: seq<Label>)
    requires Chronological(ls) && LabelsOf(rows) <= Elems(ls)
    ensures SumOver(rows, ls) == SumAll(rows)
  {
    if rows == [] {
      SumOverEmpty(ls);
    } else {
      var init, r := rows[..|rows| - 1], rows[|rows| - 1];
      assert LabelsOf(init) <= LabelsOf(rows) by {
        forall l | l in LabelsOf(init)
          ensures l in LabelsOf(rows)
        {
          var i :| 0 <= i < |init| && init[i].period.name == l;
          assert rows[i] == init[i];
        }
      }
      assert r.period.name in LabelsOf(rows);
      PartitionSum(init, ls);
      assert rows == init + [r];
      SumOverSnoc(init, r, ls);
      PickedOnce(r, ls);
    }
  }

  lemma {:induction false} SumOverEmpty(ls: seq<Label>)
    ensures SumOver([], ls) == ZERO
  {
    if ls != [] {
      SumOverEmpty(ls[..|ls| - 1]);
    }
  }

  /** Every row's computed columns satisfy the two balances of a charge. */
  predicate WellCharged(r: ChargedRow) {
    r.split.Some? ==>
      r.split.value.solar + r.split.value.nonSolar == r.load.kwh &&
      r.split.value.total == r.split.value.solarCharge + r.split.value.nonSolarCharge
  }

  /** Summed charges still balance; summed energy balances when every row found its percent. */
  lemma {:induction false} SumWhereBalanced(rows: seq<ChargedRow>, l: Label)
    requires forall i :: 0 <= i < |rows| ==> WellCharged(rows[i])
    ensures SumWhere(rows, l).total == SumWhere(rows, l).solarCharge + SumWhere(rows, l).nonSolarCharge
    ensures (forall i :: 0 <= i < |rows| ==> rows[i].split.Some?) ==>
              SumWhere(rows, l).solar + SumWhere(rows, l).nonSolar == SumWhere(rows, l).kwh
  {
    if rows != [] {
      SumWhereBalanced(rows[..|rows| - 1], l);
    }
  }

  /** One more row adds its label to the labels seen. */
  lemma LabelsOfPrefix(rows: seq<ChargedRow>, i: int)
    requires 0 <= i < |rows|
    ensures LabelsOf(rows[..i + 1]) == LabelsOf(rows[..i]) + {rows[i].period.name}
  {
    var a, b := rows[..i + 1], rows[..i];
    forall l | l in LabelsOf(a)
      ensures l in LabelsOf(b) + {rows[i].period.name}
    {
      var j :| 0 <= j < |a| && a[j].period.name == l;
      if j < i {
        assert b[j] == a[j];
      }
    }
    forall l | l in LabelsOf(b)
      ensures l in LabelsOf(a)
    {
      var j :| 0 <= j < |b| && b[j].period.name == l;
      assert a[j] == b[j];
    }
    assert a[i] == rows[i];
  }

  /** One more row adds its contribution to its own label's sums only. */
  lemma SumWherePrefix(rows: seq<ChargedRow>, i: int, l: Label)
    requires 0 <= i < |rows|
    ensures SumWhere(rows[..i + 1], l) ==
              Add(SumWhere(rows[..i], l), if rows[i].period.name == l then Contribution(rows[i]) else ZERO)
  {
    assert rows[..i + 1][..i] == rows[..i];
  }

  /** A label that no row carries has all-zero sums. */
  lemma {:induction false} SumWhereAbsent(rows: seq<ChargedRow>, l: Label)
    requires l !in LabelsOf(rows)
    ensures SumWhere(rows, l) == ZERO
  {
    if rows != [] {
      var n := |rows| - 1;
      LabelsOfPrefix(rows, n);
      assert rows[..n + 1] == rows;
      SumWhereAbsent(rows[..n], l);
    }
  }

  lemma SortedLabelsPrefix(rows: seq<ChargedRow>, i: int)
    requires forall j :: 0 <= j < |rows| ==> ValidLabel(rows[j].period.name)
    requires 0 <= i < |rows|
    ensures SortedLabels(rows[..i + 1]) == InsertLabel(SortedLabels(rows[..i]), rows[i].period.name)
  {
    assert rows[..i + 1][..i] == rows[..i];
  }

  /** One more row: add it to its label's running sum, starting from zero when the label is new. */
  lemma GroupStep(rows: seq<ChargedRow>, i: int, acc: map<Label, Sums>)
    requires 0 <= i < |rows|
    requires acc.Keys == LabelsOf(rows[..i])
    requires forall m :: m in acc ==> acc[m] == SumWhere(rows[..i], m)
    ensures var l := rows[i].period.name;
            var acc' := acc[l := Add(if l in acc then acc[l] else ZERO, Contribution(rows[i]))];
            acc'.Keys == LabelsOf(rows[..i + 1]) &&
            forall m :: m in acc' ==> acc'[m] == SumWhere(rows[..i + 1], m)
  {
    var l := rows[i].period.name;
    var acc' := acc[l := Add(if l in acc then acc[l] else ZERO, Contribution(rows[i]))];
    LabelsOfPrefix(rows, i);
    forall m | m in acc'
      ensures acc'[m] == SumWhere(rows[..i + 1], m)
    {
      SumWherePrefix(rows, i, m);
      if m == l && l !in acc {
        SumWhereAbsent(rows[..i], l);
      }
    }
  }

  /** The pivot step: one pass over the charge table keeping a running sum per
      period label, and the labels seen so far in chronological order. */
  method GroupByPeriod(rows: seq<ChargedRow>) returns (acc: map<Label, Sums>, order: seq<Label>)
    requires forall i :: 0 <= i < |rows| ==> ValidLabel(rows[i].period.name)
    ensures order == SortedLabels(rows)
    ensures acc.Keys == LabelsOf(rows)
    ensures forall l :: l in acc ==> acc[l] == SumWhere(rows, l)
  {
    acc, order := map[], [];
    for i := 0 to |rows|
      invariant order == SortedLabels(rows[..i])
      invariant acc.Keys == LabelsOf(rows[..i])
      invariant forall m :: m in acc ==> acc[m] == SumWhere(rows[..i], m)
    {
      var l := rows[i].period.name;
      GroupStep(rows, i, acc);
      SortedLabelsPrefix(rows, i);
      acc := acc[l := Add(if l in acc then acc[l] else ZERO, Contribution(rows[i]))];
      order := InsertLabel(order, l);
    }
    assert rows[..|rows|] == rows;
  }

  /** The summary of the charge table: the sums of each period present, in
      chronological order, then the grand total, which is also the sum over
      every row. None when the energy sums to zero: once the "Grand Total" label
      is stored in it the totals Series holds Python floats, so the grand-total
      rate is a float division by zero, which raises (a period row's rate is a
      Series division and only gives NaN or inf). */
  method Summarize(rows: seq<ChargedRow>) returns (table: Option<seq<SummaryRow>>)
    requires forall i :: 0 <= i < |rows| ==> ValidLabel(rows[i].period.name)
    ensures table.None? <==> SumAll(rows).kwh == 0.0
    ensures table.Some? ==> table.value == SummaryFor(rows, SortedLabels(rows))
    ensures table.Some? ==> |table.value| == |LabelsOf(rows)| + 1
    ensures table.Some? ==>
              table.value[|table.value| - 1] == GrandRow(SumAll(rows)) &&
              table.value[|table.value| - 1].rate.Some?
  {
    var acc, order := GroupByPeriod(rows);
    var periods, grand := PeriodRows(rows, acc, order);
    GrandTotalIsSumAll(rows);
    if grand.kwh == 0.0 {
      return None;
    }
    table := Some(periods + [GrandRow(grand)]);
  }

  /** The pivot's rows in the given label order, each with its effective rate,
      and the running column sums of those rows. */
  method PeriodRows(rows: seq<ChargedRow>, acc: map<Label, Sums>, order: seq<Label>)
    returns (periods: seq<SummaryRow>, grand: Sums)
    requires forall l :: l in Elems(order) ==> l in acc && acc[l] == SumWhere(rows, l)
    ensures periods == PeriodRowsFor(rows, order)
    ensures grand == SumRows(periods)
  {
    periods, grand := [], ZERO;
    for k := 0 to |order|
      invariant |periods| == k
      invariant forall j :: 0 <= j < k ==> periods[j] == PeriodSummary(rows, order[j])
      invariant grand == SumRows(periods)
    {
      assert order[k] in Elems(order);
      var row := SummaryRow(PeriodRow(order[k]), acc[order[k]], EffectiveRate(acc[order[k]]));
      SumRowsSnoc(periods, row);
      periods := periods + [row];
      grand := Add(grand, row.sums);
    }
  }

  /** The grand total of the period rows is the sum over the whole charge
      table, and there is one period row per distinct label. */
  lemma GrandTotalIsSumAll(rows: seq<ChargedRow>)
    requires forall i :: 0 <= i < |rows| ==> ValidLabel(rows[i].period.name)
    ensures SumRows(PeriodRowsFor(rows, SortedLabels(rows))) == SumAll(rows)
    ensures |SortedLabels(rows)| == |LabelsOf(rows)|
  {
    var order := SortedLabels(rows);
    SumRowsOfPeriods(rows, order);
    PartitionSum(rows, order);
    DistinctCount(order);
  }

  /** The summary table row by row: one row per period label present, each
      holding the sums over exactly the rows of its period and their effective
      rate, then the grand total, holding the sums over every row. */
  lemma SummaryRows(rows: seq<ChargedRow>)
    requires forall i :: 0 <= i < |rows| ==> ValidLabel(rows[i].period.name)
    ensures var t := SummaryFor(rows, SortedLabels(rows));
            && |t| == |LabelsOf(rows)| + 1
            && (forall i :: 0 <= i < |t| - 1 ==>
                  t[i].name.PeriodRow? && t[i].name.period in LabelsOf(rows) &&
                  t[i].sums == SumWhere(rows, t[i].name.period) && t[i].rate == EffectiveRate(t[i].sums))
            && t[|t| - 1] == GrandRow(SumAll(rows))
  {
    var order := SortedLabels(rows);
    var periods := PeriodRowsFor(rows, order);
    var t := SummaryFor(rows, order);
    assert t == periods + [GrandRow(SumRows(periods))];
    GrandTotalIsSumAll(rows);
    forall i | 0 <= i < |periods|
      ensures t[i] == PeriodSummary(rows, order[i]) && order[i] in LabelsOf(rows)
    {
      assert t[i] == periods[i];
      assert order[i] in Elems(order);
    }
  }

  /** Every period label present has its row in the summary, and the period
      rows come in strictly ascending order of the parsed label. */
  lemma SummaryOrder(rows: seq<ChargedRow>)
    requires forall i :: 0 <= i < |rows| ==> ValidLabel(rows[i].period.name)
    ensures var t := SummaryFor(rows, SortedLabels(rows));
            && (forall l :: l in LabelsOf(rows) ==> PeriodSummary(rows, l) in t)
            && (forall i, j :: 0 <= i < j < |t| - 1 ==>
                  t[i].name.PeriodRow? && t[j].name.PeriodRow? &&
                  LabelKey(t[i].name.period) < LabelKey(t[j].name.period))
  {
    var order := SortedLabels(rows);
    var periods := PeriodRowsFor(rows, order);
    var t := SummaryFor(rows, order);
    assert t == periods + [GrandRow(SumRows(periods))];
    forall i | 0 <= i < |periods|
      ensures t[i] == PeriodSummary(rows, order[i])
    {
      assert t[i] == periods[i];
    }
    forall l | l in LabelsOf(rows)
      ensures PeriodSummary(rows, l) in t
    {
      assert l in Elems(order);
      var i :| 0 <= i < |order| && order[i] == l;
      assert t[i] == PeriodSummary(rows, l);
    }
    forall i, j | 0 <= i < j < |t| - 1
      ensures t[i].name.PeriodRow? && t[j].name.PeriodRow? &&
              LabelKey(t[i].name.period) < LabelKey(t[j].name.period)
    {
      assert t[i].name == PeriodRow(order[i]) && t[j].name == PeriodRow(order[j]);
    }
  }

  lemma SumRowsSnoc(t: seq<SummaryRow>, x: SummaryRow)
    ensures SumRows(t + [x]) == Add(SumRows(t), x.sums)
  {
    assert (t + [x])[..|t|] == t;
  }

  lemma {:induction false} DistinctCount(ls: seq<Label>)
    requires Chronological(ls)
    ensures |Elems(ls)| == |ls|
  {
    if ls != [] {
      NotInTail(ls);
      DistinctCount(ls[1..]);
    }
  }
}
