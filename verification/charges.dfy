/** Per-interval charges: the load rows joined to the guarantee curve by hour,
    each row's energy split into a solar and a non-solar part and priced, and
    the detailed table sorted by timestamp. */
module Charges {
  import opened Wrappers
  import opened Calendar
  import opened SupplyPeriod
  import opened Guarantee

  /** The three rates entered once per run, in currency per kWh. */
  datatype Tariff = Tariff(solarRate: real, lineRental: real, adminFee: real)

  /** One metered interval of the uploaded load profile. `sourcePeriod` is the
      uploaded 'supply period' column, carried through untouched. */
  datatype LoadRow = LoadRow(sourcePeriod: string, datetime: DateTime, hour: int, wesm: real, kwh: real)

  /** A load row with the guarantee percent the hour join found for it (None:
      no matching hour, or a matching hour whose cell is empty). */
  datatype JoinedRow = JoinedRow(load: LoadRow, percent: Option<real>)

  /** The rows a left join on the hour column gives for one load row: one per
      matching curve row, or a single row without a percent when none matches. */
  function JoinRow(row: LoadRow, curve: seq<Entry>): (j: seq<JoinedRow>)
    ensures |j| == if Matches(curve, row.hour) == [] then 1 else |Matches(curve, row.hour)|
    ensures forall k :: 0 <= k < |j| ==> j[k].load == row
    ensures Matches(curve, row.hour) == [] ==> j == [JoinedRow(row, None)]
    ensures Matches(curve, row.hour) != [] ==>
              forall k :: 0 <= k < |j| ==> j[k].percent == Matches(curve, row.hour)[k]
  {
    var ms := Matches(curve, row.hour);
    if ms == [] then [JoinedRow(row, None)]
    else seq(|ms|, k requires 0 <= k < |ms| => JoinedRow(row, ms[k]))
  }

  /** `df.merge(curve, left_on='hour', right_on='Hour', how='left')`, keeping the load rows' order. */
  function LeftJoin(rows: seq<LoadRow>, curve: seq<Entry>): (j: seq<JoinedRow>)
    ensures |j| >= |rows|
  {
    if rows == [] then [] else LeftJoin(rows[..|rows| - 1], curve) + JoinRow(rows[|rows| - 1], curve)
  }

  /** Joined with a curve table, every load row yields exactly one row, in
      order, carrying its own hour's cell (none for an hour outside the table). */
  lemma {:induction false} LeftJoinOnCurve(rows: seq<LoadRow>, percents: seq<Option<real>>)
    ensures |LeftJoin(rows, CurveFrom(percents))| == |rows|
    ensures forall i :: 0 <= i < |rows| ==>
              LeftJoin(rows, CurveFrom(percents))[i] == JoinedRow(rows[i], PercentForHour(percents, rows[i].hour))
  {
    if rows != [] {
      var last := |rows| - 1;
      LeftJoinOnCurve(rows[..last], percents);
      MatchesOnCurve(percents, rows[last].hour);
      var j := LeftJoin(rows, CurveFrom(percents));
      assert JoinRow(rows[last], CurveFrom(percents)) == [JoinedRow(rows[last], PercentForHour(percents, rows[last].hour))];
      assert j == LeftJoin(rows[..last], CurveFrom(percents)) + JoinRow(rows[last], CurveFrom(percents));
      forall i | 0 <= i < |rows|
        ensures j[i] == JoinedRow(rows[i], PercentForHour(percents, rows[i].hour))
      {
        if i < last {
          assert rows[..last][i] == rows[i];
        }
      }
    }
  }

  /** The five computed columns of a row. */
  datatype Split = Split(solar: real, nonSolar: real, solarCharge: real, nonSolarCharge: real, total: real)

  /** Splits `kwh` by the guarantee percent and prices each part: solar at the
      solar rate plus line rental, non-solar at the spot price plus admin fee. */
  function SplitCharges(kwh: real, percent: real, wesm: real, t: Tariff): (s: Split)
    ensures s.solar * 100.0 == kwh * percent
    ensures s.solar + s.nonSolar == kwh
    ensures s.solarCharge == s.solar * (t.solarRate + t.lineRental)
    ensures s.nonSolarCharge == s.nonSolar * (wesm + t.adminFee)
    ensures s.total == s.solarCharge + s.nonSolarCharge
    ensures 0.0 <= kwh && InRange(percent) ==> 0.0 <= s.solar <= kwh && 0.0 <= s.nonSolar <= kwh
  {
    var solar := kwh * percent / 100.0;
    var nonSolar := kwh - solar;
    var solarCharge := solar * (t.solarRate + t.lineRental);
    var nonSolarCharge := nonSolar * (wesm + t.adminFee);
    SplitBounds(kwh, percent);
    Split(solar, nonSolar, solarCharge, nonSolarCharge, solarCharge + nonSolarCharge)
  }

  lemma SplitBounds(kwh: real, percent: real)
    ensures 0.0 <= kwh && InRange(percent) ==> 0.0 <= kwh * percent / 100.0 <= kwh
  {
    if 0.0 <= kwh && InRange(percent) {
      assert kwh * percent <= kwh * 100.0;
    }
  }

  /** A row's total charge is its energy at the percent-weighted blend of the
      solar price and the non-solar price. */
  lemma BlendedRate(kwh: real, percent: real, wesm: real, t: Tariff)
    ensures SplitCharges(kwh, percent, wesm, t).total ==
              kwh * (percent / 100.0 * (t.solarRate + t.lineRental) + (1.0 - percent / 100.0) * (wesm + t.adminFee))
  {
    var s := SplitCharges(kwh, percent, wesm, t);
    assert s.solar == kwh * (percent / 100.0);
    assert s.nonSolar == kwh * (1.0 - percent / 100.0);
  }

  /** A row of the charge table: the joined row, its computed columns (None when
      the percent is missing, as every one of them is then NaN) and its supply period. */
  datatype ChargedRow = ChargedRow(load: LoadRow, percent: Option<real>, split: Option<Split>, period: Period)

  function ChargeRow(j: JoinedRow, t: Tariff): (c: ChargedRow)
    requires ValidDateTime(j.load.datetime)
  {
    var split := match j.percent
      case Some(p) => Some(SplitCharges(j.load.kwh, p, j.load.wesm, t))
      case None => None;
    ChargedRow(j.load, j.percent, split, GetSupplyPeriod(j.load.datetime))
  }

  predicate AllDatetimesValid(rows: seq<LoadRow>) {
    forall i :: 0 <= i < |rows| ==> ValidDateTime(rows[i].datetime)
  }

  /** The computed columns and the supply-period columns added to the joined table. */
  function ComputeCharges(joined: seq<JoinedRow>, t: Tariff): (r: seq<ChargedRow>)
    requires forall i :: 0 <= i < |joined| ==> ValidDateTime(joined[i].load.datetime)
    ensures |r| == |joined|
    ensures forall i :: 0 <= i < |r| ==> r[i] == ChargeRow(joined[i], t)
    ensures forall i :: 0 <= i < |r| ==> r[i].load == joined[i].load && (r[i].split.Some? <==> joined[i].percent.Some?)
    ensures forall i :: 0 <= i < |r| && r[i].split.Some? ==>
              r[i].split.value.solar + r[i].split.value.nonSolar == r[i].load.kwh &&
              r[i].split.value.total == r[i].split.value.solarCharge + r[i].split.value.nonSolarCharge
    ensures forall i :: 0 <= i < |r| ==> ValidLabel(r[i].period.name) && DateTimeLe(r[i].load.datetime, r[i].period.end)
  {
    seq(|joined|, i requires 0 <= i < |joined| => ChargeRow(joined[i], t))
  }

  /** A row of the detailed table: the selected columns of a charged row. */
  datatype DetailedRow = DetailedRow(sourcePeriod: string, datetime: DateTime, hour: int, wesm: real, kwh: real, split: Option<Split>)

  function Detail(c: ChargedRow): DetailedRow {
    DetailedRow(c.load.sourcePeriod, c.load.datetime, c.load.hour, c.load.wesm, c.load.kwh, c.split)
  }

  function DetailAll(cs: seq<ChargedRow>): (ds: seq<DetailedRow>)
    ensures |ds| == |cs| && forall i :: 0 <= i < |cs| ==> ds[i] == Detail(cs[i])
  {
    seq(|cs|, i requires 0 <= i < |cs| => Detail(cs[i]))
  }

  /** Ascending by timestamp, compared through `Stamp`. */
  predicate SortedByDatetime(s: seq<DetailedRow>) {
    forall i, j :: 0 <= i < j < |s| ==> Stamp(s[i].datetime) <= Stamp(s[j].datetime)
  }

  /** For valid timestamps, a table sorted by `Stamp` is in calendar order. */
  lemma SortedIsChronological(s: seq<DetailedRow>, i: int, j: int)
    requires SortedByDatetime(s) && 0 <= i < j < |s|
    requires ValidDateTime(s[i].datetime) && ValidDateTime(s[j].datetime)
    ensures DateTimeLe(s[i].datetime, s[j].datetime)
  {
    StampOrder(s[i].datetime, s[j].datetime);
  }

  /** Puts `x` into a table sorted by timestamp, after the rows that come strictly earlier. */
  function InsertByDatetime(x: DetailedRow, s: seq<DetailedRow>): (r: seq<DetailedRow>)
    requires SortedByDatetime(s)
    ensures SortedByDatetime(r)
    ensures multiset(r) == multiset(s) + multiset{x}
    ensures |r| == |s| + 1
  {
    if s == [] then [x]
    else if Stamp(x.datetime) <= Stamp(s[0].datetime) then [x] + s
    else
      var rest := InsertByDatetime(x, s[1..]);
      InsertAfterHead(x, s, rest);
      [s[0]] + rest
  }

  /** The head of a sorted table, earlier than `x`, stays in front of the rest with `x` inserted. */
  lemma InsertAfterHead(x: DetailedRow, s: seq<DetailedRow>, rest: seq<DetailedRow>)
    requires SortedByDatetime(s) && s != [] && Stamp(s[0].datetime) < Stamp(x.datetime)
    requires SortedByDatetime(rest) && multiset(rest) == multiset(s[1..]) + multiset{x}
    ensures SortedByDatetime([s[0]] + rest)
    ensures multiset([s[0]] + rest) == multiset(s) + multiset{x}
  {
    forall k | 0 <= k < |rest|
      ensures Stamp(s[0].datetime) <= Stamp(rest[k].datetime)
    {
      assert rest[k] in multiset(rest);
      if rest[k] != x {
        assert rest[k] in multiset(s[1..]);
        var j :| 0 <= j < |s[1..]| && s[1..][j] == rest[k];
        assert s[j + 1] == rest[k];
      }
    }
    var r := [s[0]] + rest;
    forall i, j | 0 <= i < j < |r|
      ensures Stamp(r[i].datetime) <= Stamp(r[j].datetime)
    {
      assert r[j] == rest[j - 1];
      if i > 0 {
        assert r[i] == rest[i - 1];
      }
    }
    assert s == [s[0]] + s[1..];
  }

  /** `sort_values(by='datetime')`: the same rows in ascending timestamp order.
      Rows with equal timestamps may come in any order, as pandas' default sort is not stable. */
  function SortByDatetime(s: seq<DetailedRow>): (r: seq<DetailedRow>)
    ensures SortedByDatetime(r)
    ensures multiset(r) == multiset(s) && |r| == |s|
  {
    if s == [] then []
    else
      assert s == s[..|s| - 1] + [s[|s| - 1]];
      InsertByDatetime(s[|s| - 1], SortByDatetime(s[..|s| - 1]))
  }
}
