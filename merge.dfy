/**
 * Merging the grouped case frame onto the timeline: a left join on the
 * timeline's index, which `build_merged_dataset` first overwrites with the
 * timeline's own `Time` column.
 */
module Merge {
  import opened Wrappers
  import opened Records
  import opened RegionFilter

  /** The timeline frame: a `Time` column and the index the join uses. */
  class TimelineFrame {
    var time: seq<Day>
    var index: seq<Day>

    predicate Valid()
      reads this
    {
      |index| == |time|
    }

    /** A frame built from a date range starts with the default index 0, 1, 2, ... */
    constructor (days: seq<Day>)
      ensures Valid()
      ensures time == days
      ensures forall i :: 0 <= i < |index| ==> index[i] == i
    {
      time := days;
      index := seq(|days|, i requires 0 <= i < |days| => i);
    }
  }

  /** One row of the merged frame: the day and the grouped counts, missing (NaN) where the case frame has no row. */
  datatype MergedRow = MergedRow(time: Day, infected: Option<int>, deaths: Option<int>)

  /** `timeline.join(df_cases, how='left')`: one row per timeline row, in timeline order,
      carrying the grouped row whose timestamp equals the timeline row's index. */
  function LeftJoin(keys: seq<Day>, time: seq<Day>, s: Series): (r: seq<MergedRow>)
    requires |keys| == |time|
    ensures |r| == |time|
  {
    seq(|time|, i requires 0 <= i < |time| =>
      match Lookup(s, keys[i])
      case None => MergedRow(time[i], None, None)
      case Some(e) => MergedRow(time[i], Some(e.infected), Some(e.deaths)))
  }

  /** `build_merged_dataset`: sets the timeline's index to its `Time` column, then left-joins. */
  method BuildMergedDataset(cases: Series, timeline: TimelineFrame) returns (merged: seq<MergedRow>)
    requires timeline.Valid()
    modifies timeline
    ensures timeline.Valid() && timeline.time == old(timeline.time)
    ensures timeline.index == timeline.time
    ensures merged == LeftJoin(timeline.time, timeline.time, cases)
  {
    timeline.index := timeline.time;
    merged := LeftJoin(timeline.index, timeline.time, cases);
  }

  /** The merged frame has one row per timeline day, in timeline order; a day on which the
      region has records carries their sums, any other day carries no value (not zero). */
  lemma MergedRows(cases: seq<CaseRecord>, country: string, time: seq<Day>)
    ensures var m := LeftJoin(time, time, RegionSeries(cases, country));
      |m| == |time| &&
      forall i :: 0 <= i < |m| ==>
        m[i].time == time[i] &&
        (time[i] in RegionStamps(cases, country) ==>
          m[i].infected == Some(InfectedOn(cases, country, time[i])) &&
          m[i].deaths == Some(DeathsOn(cases, country, time[i]))) &&
        (time[i] !in RegionStamps(cases, country) ==> m[i].infected.None? && m[i].deaths.None?)
  {
    var s := RegionSeries(cases, country);
    var m := LeftJoin(time, time, s);
    forall i | 0 <= i < |m|
      ensures time[i] in RegionStamps(cases, country) ==>
        m[i].infected == Some(InfectedOn(cases, country, time[i])) &&
        m[i].deaths == Some(DeathsOn(cases, country, time[i]))
      ensures time[i] !in RegionStamps(cases, country) ==> m[i].infected.None? && m[i].deaths.None?
    {
      assert Lookup(s, time[i]) == RegionTotal(cases, country, time[i]);
    }
  }

  /** Joining on the default index 0, 1, 2, ... instead of the days would look up the
      wrong keys: the index assignment is what makes the join match dates. */
  lemma DefaultIndexMismatch()
    ensures var s := [DayTotal(5, 3, 0)];
      && LeftJoin([0], [5], s) == [MergedRow(5, None, None)]
      && LeftJoin([5], [5], s) == [MergedRow(5, Some(3), Some(0))]
  {
    var s := [DayTotal(5, 3, 0)];
    assert Lookup(s, 0) == Lookup(s[1..], 0);
    assert Lookup(s, 5) == Some(DayTotal(5, 3, 0));
  }
}
