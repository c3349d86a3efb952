/** The 24-hour solar-guarantee curve: one percent per hour of the day, the
    range check the run applies to it, and the lookup that the hour join uses.
    A percent is `None` when its cell was left empty in the editor (NaN). */
module Guarantee {
  import opened Wrappers

  const HOURS := 24

  /** The values of the curve the editor starts from, hour 1 first. */
  const DEFAULT_VALUES: seq<real> :=
    [0.0, 0.0, 0.0, 0.0, 0.0, 0.0, 0.0, 29.0, 57.0, 79.0, 93.0, 100.0,
     100.0, 93.0, 79.0, 57.0, 21.0, 0.0, 0.0, 0.0, 0.0, 0.0, 0.0, 0.0]

  /** The default curve, every cell filled in. */
  const DEFAULT_PERCENTS: seq<Option<real>> :=
    seq(|DEFAULT_VALUES|, i requires 0 <= i < |DEFAULT_VALUES| => Some(DEFAULT_VALUES[i]))

  /** One row of the curve table: an hour and its guarantee percent. */
  datatype Entry = Entry(hour: int, percent: Option<real>)

  /** The curve table whose k-th percent (from 0) belongs to hour k + 1. */
  function CurveFrom(percents: seq<Option<real>>): (c: seq<Entry>)
    ensures |c| == |percents|
    ensures forall i :: 0 <= i < |c| ==> c[i].hour == i + 1 && c[i].percent == percents[i]
  {
    seq(|percents|, i requires 0 <= i < |percents| => Entry(i + 1, percents[i]))
  }

  predicate HasHour(c: seq<Entry>, h: int) {
    exists i :: 0 <= i < |c| && c[i].hour == h
  }

  /** A 24-percent table covers hours 1..24, each exactly once. */
  lemma CurveHoursExact(percents: seq<Option<real>>)
    requires |percents| == HOURS
    ensures forall h :: HasHour(CurveFrom(percents), h) <==> 1 <= h <= HOURS
    ensures forall i, j :: 0 <= i < j < HOURS ==> CurveFrom(percents)[i].hour != CurveFrom(percents)[j].hour
  {
    var c := CurveFrom(percents);
    forall h | 1 <= h <= HOURS
      ensures HasHour(c, h)
    {
      assert c[h - 1].hour == h;
    }
  }

  predicate InRange(p: real) {
    0.0 <= p <= 100.0
  }

  /** Below 0 or above 100; an empty cell is neither, as NaN compares false both ways. */
  predicate OutOfRange(p: Option<real>) {
    p.Some? && !InRange(p.value)
  }

  /** The check that decides whether the run goes on. */
  predicate AnyOutOfRange(percents: seq<Option<real>>) {
    exists i :: 0 <= i < |percents| && OutOfRange(percents[i])
  }

  /** `clip(lower=0, upper=100)` on one value. */
  function Clip(p: real): (r: real)
    ensures InRange(r)
    ensures InRange(p) ==> r == p
    ensures p < 0.0 ==> r == 0.0
    ensures p > 100.0 ==> r == 100.0
  {
    if p < 0.0 then 0.0 else if p > 100.0 then 100.0 else p
  }

  /** `clip` on one cell: an empty cell stays empty. */
  function ClipCell(p: Option<real>): (r: Option<real>)
    ensures !OutOfRange(r) && r.Some? == p.Some?
    ensures !OutOfRange(p) ==> r == p
    ensures p.Some? ==> r == Some(Clip(p.value))
  {
    match p
    case None => None
    case Some(x) => Some(Clip(x))
  }

  /** The clipped table, cell by cell. */
  function ClipAll(percents: seq<Option<real>>): (r: seq<Option<real>>)
    ensures |r| == |percents|
    ensures forall i :: 0 <= i < |r| ==> r[i] == ClipCell(percents[i])
  {
    seq(|percents|, i requires 0 <= i < |percents| => ClipCell(percents[i]))
  }

  /** Clipping leaves every percent in range, leaves an in-range table as it
      was, and a second clip changes nothing. */
  lemma ClipAllProperties(percents: seq<Option<real>>)
    ensures !AnyOutOfRange(ClipAll(percents))
    ensures !AnyOutOfRange(percents) ==> ClipAll(percents) == percents
    ensures ClipAll(ClipAll(percents)) == ClipAll(percents)
  {
  }

  /** The percent column clipped where it is stored. */
  method ClipInPlace(a: array<Option<real>>)
    modifies a
    ensures a[..] == ClipAll(old(a[..]))
    ensures !AnyOutOfRange(a[..])
    ensures forall i :: 0 <= i < a.Length && !OutOfRange(old(a[i])) ==> a[i] == old(a[i])
  {
    for i := 0 to a.Length
      invariant forall k :: 0 <= k < i ==> a[k] == ClipCell(old(a[k]))
      invariant forall k :: i <= k < a.Length ==> a[k] == old(a[k])
    {
      a[i] := ClipCell(a[i]);
    }
  }

  /** The percents of every curve row whose hour is `h`, in table order: what a
      join on the hour column finds for a load row of hour `h`. */
  function Matches(c: seq<Entry>, h: int): (ps: seq<Option<real>>)
    ensures |ps| <= |c|
  {
    if c == [] then []
    else (if c[0].hour == h then [c[0].percent] else []) + Matches(c[1..], h)
  }

  /** In a table whose hours count up from `first`, an hour matches exactly one
      row when it is in range and none otherwise. */
  lemma {:induction false} MatchesConsecutive(c: seq<Entry>, first: int, h: int)
    requires forall i :: 0 <= i < |c| ==> c[i].hour == first + i
    ensures Matches(c, h) == if first <= h < first + |c| then [c[h - first].percent] else []
  {
    if c != [] {
      MatchesConsecutive(c[1..], first + 1, h);
    }
  }

  /** The percent the join gives a load row of hour `h`: none for an hour
      outside the table, and the cell as entered (possibly empty) otherwise. */
  function PercentForHour(percents: seq<Option<real>>, h: int): Option<real> {
    if 1 <= h <= |percents| then percents[h - 1] else None
  }

  /** Joining on a curve table finds exactly one row, hour h's own, for h in
      1..24, and none for an hour outside the table. */
  lemma MatchesOnCurve(percents: seq<Option<real>>, h: int)
    ensures Matches(CurveFrom(percents), h) == if 1 <= h <= |percents| then [percents[h - 1]] else []
  {
    MatchesConsecutive(CurveFrom(percents), 1, h);
  }
}
