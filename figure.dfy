/**
 * The figure of one region: the region's cases merged onto the global
 * timeline for the bar charts, and the action markers, which are drawn only
 * when the region has at least one action.
 */
module Figure {
  import opened Wrappers
  import opened Records
  import opened Timeline
  import opened RegionFilter
  import opened Merge
  import opened MarkerLayout

  /** The index labels the rows of `df_actions[df_actions['location'] == country]` keep:
      the labels of the selected rows, in table order. */
  function RegionLabels(actions: seq<ActionRow>, labels: seq<int>, country: string): (r: seq<int>)
    requires |labels| == |actions|
    ensures |r| <= |labels|
    ensures forall x :: x in r ==> x in labels
  {
    if actions == [] then []
    else
      var n := |actions|;
      var r := RegionLabels(actions[..n - 1], labels[..n - 1], country);
      if actions[n - 1].location == Some(country) then r + [labels[n - 1]] else r
  }

  /** The filter keeps one label per kept row. */
  lemma {:induction false} RegionLabelsLength(actions: seq<ActionRow>, labels: seq<int>, country: string)
    requires |labels| == |actions|
    ensures |RegionLabels(actions, labels, country)| == |RegionActions(actions, country)|
  {
    if actions != [] {
      var n := |actions|;
      RegionLabelsLength(actions[..n - 1], labels[..n - 1], country);
      RegionActionsLength(actions, country);
    }
  }

  /** Filtering one more row adds it to the region's rows or not. */
  lemma RegionActionsLength(actions: seq<ActionRow>, country: string)
    requires actions != []
    ensures |RegionActions(actions, country)| == |RegionActions(actions[..|actions| - 1], country)| +
      if actions[|actions| - 1].location == Some(country) then 1 else 0
  {
  }

  /** `main_figure`: filters the global tables to the region, merges its cases onto the global
      timeline (whose index this overwrites) and builds the markers unless the region has no
      actions, in which case there are none. The bar charts and the final Plotly figure are
      styling of these two results. */
  method MainFigure(country: string, cases: seq<CaseRecord>, actions: seq<ActionRow>, labels: seq<int>,
                    timeline: TimelineFrame)
    returns (merged: seq<MergedRow>, markers: seq<Segment>)
    requires Loaded(actions) && |labels| == |actions| && timeline.Valid()
    modifies timeline
    ensures timeline.Valid() && timeline.time == old(timeline.time) && timeline.index == timeline.time
    ensures merged == LeftJoin(timeline.time, timeline.time, RegionSeries(cases, country))
    ensures var regional := RegionActions(actions, country);
      markers == if regional == [] then []
                 else Layout(Scale(RegionSeries(cases, country), |regional|), SortByStart(Number(regional)))
  {
    var regionCases := RegionSeries(cases, country);
    var regionActions := RegionActions(actions, country);
    merged := BuildMergedDataset(regionCases, timeline);
    if regionActions != [] {
      RegionLabelsLength(actions, labels, country);
      var frame := new ActionFrame(regionActions, RegionLabels(actions, labels, country));
      markers := BuildAmData(regionCases, frame);
    } else {
      markers := [];
    }
  }

  /** No case record of the region is lost: on the timeline built from all cases and actions,
      the merged frame has a row for the record's date carrying that date's regional sums. */
  lemma NoRecordDropped(cases: seq<CaseRecord>, actions: seq<ActionRow>, country: string, c: CaseRecord)
    requires actions != [] && Loaded(actions)
    requires c in cases && c.country == country
    ensures CreateTimeline(cases, actions).Success?
    ensures var t := CreateTimeline(cases, actions).value;
      var m := LeftJoin(t, t, RegionSeries(cases, country));
      exists i :: 0 <= i < |m| && m[i] == MergedRow(c.stamp, Some(InfectedOn(cases, country, c.stamp)),
                                                   Some(DeathsOn(cases, country, c.stamp)))
  {
    TimelineCovers(cases, actions);
    var t := CreateTimeline(cases, actions).value;
    MergedRows(cases, country, t);
    var i :| 0 <= i < |t| && t[i] == c.stamp;
    assert c.stamp in RegionStamps(cases, country);
    var m := LeftJoin(t, t, RegionSeries(cases, country));
    assert m[i] == MergedRow(c.stamp, Some(InfectedOn(cases, country, c.stamp)), Some(DeathsOn(cases, country, c.stamp)));
  }

  /** Every day of the timeline appears once in the merged frame, in order, whether or not the
      region has records for it. */
  lemma OneRowPerDay(cases: seq<CaseRecord>, actions: seq<ActionRow>, country: string)
    requires cases != [] && actions != [] && Loaded(actions)
    ensures CreateTimeline(cases, actions).Success?
    ensures var t := CreateTimeline(cases, actions).value;
      var m := LeftJoin(t, t, RegionSeries(cases, country));
      && |m| == Latest(cases, actions) - Earliest(cases, actions) + 1
      && forall i :: 0 <= i < |m| ==> m[i].time == Earliest(cases, actions) + i
  {
    TimelineLength(cases, actions);
    var t := CreateTimeline(cases, actions).value;
    MergedRows(cases, country, t);
  }
}
