/**
 * Laying out the action markers of one region: a vertical scale from the
 * grouped case frame, a level per action from the row number it was given
 * before sorting, and five x/y segments per action with a 15-day effect lag.
 */
module MarkerLayout {
  import opened Wrappers
  import opened Records
  import opened RegionFilter

  /** Days between the start of an action and the start of its possible effect. */
  const EffectLag: int := 15

  /** A row of the action frame together with its index label. */
  datatype Labeled = Labeled(rowNum: int, row: ActionRow)

  predicate LabeledLoaded(xs: seq<Labeled>) {
    forall i :: 0 <= i < |xs| ==> Complete(xs[i].row)
  }

  /** Pairs index labels with rows, as `iterrows` yields them. */
  function Zip(index: seq<int>, rows: seq<ActionRow>): (r: seq<Labeled>)
    requires |index| == |rows|
    ensures |r| == |rows|
    ensures forall i :: 0 <= i < |rows| ==> r[i] == Labeled(index[i], rows[i])
    ensures Loaded(rows) ==> LabeledLoaded(r)
  {
    seq(|rows|, i requires 0 <= i < |rows| => Labeled(index[i], rows[i]))
  }

  /** `list(range(1, n + 1))`. */
  function Labels(n: nat): (r: seq<int>)
    ensures |r| == n
  {
    seq(n, i requires 0 <= i < n => i + 1)
  }

  /** The rows labelled 1..n by their position, as the frame is after its index is overwritten. */
  function Number(rows: seq<ActionRow>): (r: seq<Labeled>)
    ensures |r| == |rows|
    ensures forall i :: 0 <= i < |rows| ==> r[i] == Labeled(i + 1, rows[i])
  {
    Zip(Labels(|rows|), rows)
  }

  // ---------------------------------------------------------------------------
  // Vertical scale
  // ---------------------------------------------------------------------------

  /** `max(df_cases['infected'])`. */
  function MaxInfected(s: Series): (m: int)
    requires s != []
    ensures exists i :: 0 <= i < |s| && s[i].infected == m
    ensures forall i :: 0 <= i < |s| ==> s[i].infected <= m
  {
    if |s| == 1 then s[0].infected
    else
      var m := MaxInfected(s[..|s| - 1]);
      if s[|s| - 1].infected > m then s[|s| - 1].infected else m
  }

  /** `max_cases`: the peak of the grouped infections shared out over the n actions,
      or n itself when the region has no case rows. */
  function Scale(s: Series, n: nat): (r: real)
    requires n > 0
    ensures s == [] ==> r == n as real
    ensures s != [] ==> forall i :: 0 <= i < |s| ==> s[i].infected as real <= r * n as real
    ensures s != [] ==> exists i :: 0 <= i < |s| && s[i].infected as real == r * n as real
  {
    if s == [] then n as real else MaxInfected(s) as real / n as real
  }

  // ---------------------------------------------------------------------------
  // Sorting by start date
  // ---------------------------------------------------------------------------

  function StartOf(x: Labeled): Day
    requires x.row.start.Some?
  {
    x.row.start.value
  }

  predicate SortedByStart(xs: seq<Labeled>)
    requires LabeledLoaded(xs)
  {
    forall i, j :: 0 <= i < j < |xs| ==> StartOf(xs[i]) <= StartOf(xs[j])
  }

  /** Inserts x before the first row that starts strictly later. */
  function Insert(x: Labeled, s: seq<Labeled>): (r: seq<Labeled>)
    requires Complete(x.row) && LabeledLoaded(s) && SortedByStart(s)
    ensures LabeledLoaded(r) && SortedByStart(r)
    ensures multiset(r) == multiset(s) + multiset{x}
    ensures |r| == |s| + 1
    ensures r[0] == x || (s != [] && r[0] == s[0])
  {
    if s == [] then [x]
    else if StartOf(x) < StartOf(s[0]) then [x] + s
    else
      var tail := s[1..];
      assert LabeledLoaded(tail) && SortedByStart(tail) by {
        forall i | 0 <= i < |tail| ensures Complete(tail[i].row) && tail[i] == s[i + 1] { }
      }
      var rest := Insert(x, tail);
      assert s == [s[0]] + tail;
      assert StartOf(s[0]) <= StartOf(rest[0]);
      InsertStep(s[0], rest);
      [s[0]] + rest
  }

  /** Prepending a row that starts no later than the head of a sorted list keeps it sorted. */
  lemma InsertStep(h: Labeled, rest: seq<Labeled>)
    requires Complete(h.row) && LabeledLoaded(rest) && SortedByStart(rest) && rest != []
    requires StartOf(h) <= StartOf(rest[0])
    ensures LabeledLoaded([h] + rest) && SortedByStart([h] + rest)
  {
    var r := [h] + rest;
    forall i | 0 <= i < |r| ensures Complete(r[i].row) {
      if i > 0 { assert r[i] == rest[i - 1]; }
    }
    forall i, j | 0 <= i < j < |r| ensures StartOf(r[i]) <= StartOf(r[j]) {
      assert r[j] == rest[j - 1];
      if i > 0 { assert r[i] == rest[i - 1]; }
      else { assert StartOf(rest[0]) <= StartOf(rest[j - 1]) || j == 1; }
    }
  }

  /** `sort_values("startdate_action")`: ascending start dates, the same rows. */
  function SortByStart(xs: seq<Labeled>): (r: seq<Labeled>)
    requires LabeledLoaded(xs)
    ensures LabeledLoaded(r) && SortedByStart(r)
    ensures multiset(r) == multiset(xs)
    ensures |r| == |xs|
  {
    if xs == [] then []
    else
      var prefix := xs[..|xs| - 1];
      assert xs == prefix + [xs[|xs| - 1]];
      Insert(xs[|xs| - 1], SortByStart(prefix))
  }

  // ---------------------------------------------------------------------------
  // Marker geometry
  // ---------------------------------------------------------------------------

  /** The x-interval [x0, x1] and y-interval [y0, y1] of one trace. */
  datatype Segment = Segment(x0: Day, x1: Day, y0: real, y1: real)

  /** The five trace lists of `build_am_data`, in the order they are concatenated. */
  datatype Kind = StartLine | EffectLine | Pending | Active | Tail

  /** The segment of one kind for an action drawn at `level`. The start and effect lines
      drop vertically from the level to the axis; the other three run horizontally at the
      level; every segment begins at the start date or EffectLag days after it. */
  function Shape(k: Kind, level: real, start: Day, end: Day): (r: Segment)
    ensures (k == StartLine || k == EffectLine) ==> r.x0 == r.x1 && r.y0 == level && r.y1 == 0.0
    ensures (k != StartLine && k != EffectLine) ==> r.y0 == level && r.y1 == level
    ensures r.x0 == start || r.x0 == start + EffectLag
    ensures k == Tail ==> r.x1 - r.x0 == end - start
  {
    match k
    case StartLine => Segment(start, start, level, 0.0)
    case EffectLine => Segment(start + EffectLag, start + EffectLag, level, 0.0)
    case Pending => Segment(start, start + EffectLag, level, level)
    case Active => Segment(start + EffectLag, end, level, level)
    case Tail => Segment(start + EffectLag, end + EffectLag, level, level)
  }

  /** The height of an action's markers: the scale times its row label. */
  function Level(scale: real, rowNum: int): (r: real)
    ensures 0.0 < scale && 0 < rowNum ==> 0.0 < r
  {
    scale * rowNum as real
  }

  /** Heights grow with the label, so actions with different labels never share a height. */
  lemma LevelsOrdered(scale: real, a: int, b: int)
    requires 0.0 < scale && a < b
    ensures Level(scale, a) < Level(scale, b)
  {
    assert Level(scale, b) - Level(scale, a) == scale * (b - a) as real;
  }

  /** One list comprehension of `build_am_data`: a trace per row, in row order. */
  function Traces(k: Kind, scale: real, xs: seq<Labeled>): (r: seq<Segment>)
    requires LabeledLoaded(xs)
    ensures |r| == |xs|
    ensures forall i :: 0 <= i < |xs| ==>
      r[i] == Shape(k, Level(scale, xs[i].rowNum), xs[i].row.start.value, xs[i].row.end.value)
  {
    var r := seq(|xs|, i requires 0 <= i < |xs| && Complete(xs[i].row) =>
      Shape(k, Level(scale, xs[i].rowNum), xs[i].row.start.value, xs[i].row.end.value));
    assert forall i :: 0 <= i < |xs| ==>
      r[i] == Shape(k, Level(scale, xs[i].rowNum), xs[i].row.start.value, xs[i].row.end.value) by {
      forall i | 0 <= i < |xs|
        ensures r[i] == Shape(k, Level(scale, xs[i].rowNum), xs[i].row.start.value, xs[i].row.end.value)
      {
        assert Complete(xs[i].row);
      }
    }
    r
  }

  /** All traces: start lines, effect lines, pending markers, active markers, tails. */
  function Layout(scale: real, xs: seq<Labeled>): (r: seq<Segment>)
    requires LabeledLoaded(xs)
    ensures |r| == 5 * |xs|
  {
    Traces(StartLine, scale, xs) + Traces(EffectLine, scale, xs) + Traces(Pending, scale, xs) +
    Traces(Active, scale, xs) + Traces(Tail, scale, xs)
  }

  /** Where the five segments of the i-th sorted row sit in the concatenated output. */
  lemma LayoutAt(scale: real, xs: seq<Labeled>, i: nat)
    requires LabeledLoaded(xs) && i < |xs|
    ensures var n, x := |xs|, xs[i];
      var out, level := Layout(scale, xs), Level(scale, x.rowNum);
      && out[i] == Shape(StartLine, level, x.row.start.value, x.row.end.value)
      && out[n + i] == Shape(EffectLine, level, x.row.start.value, x.row.end.value)
      && out[2 * n + i] == Shape(Pending, level, x.row.start.value, x.row.end.value)
      && out[3 * n + i] == Shape(Active, level, x.row.start.value, x.row.end.value)
      && out[4 * n + i] == Shape(Tail, level, x.row.start.value, x.row.end.value)
  {
    var n := |xs|;
    var a, b, c, d, e := Traces(StartLine, scale, xs), Traces(EffectLine, scale, xs),
      Traces(Pending, scale, xs), Traces(Active, scale, xs), Traces(Tail, scale, xs);
    var out := Layout(scale, xs);
    assert out == a + b + c + d + e;
    assert out[i] == a[i] && out[n + i] == b[i] && out[2 * n + i] == c[i];
    assert out[3 * n + i] == d[i] && out[4 * n + i] == e[i];
  }

  /** The action frame of one region: rows and the index labels `iterrows` yields. */
  class ActionFrame {
    var rows: seq<ActionRow>
    var index: seq<int>

    predicate Valid()
      reads this
    {
      |index| == |rows|
    }

    constructor (rows: seq<ActionRow>, labels: seq<int>)
      requires |labels| == |rows|
      ensures Valid() && this.rows == rows && index == labels
    {
      this.rows := rows;
      index := labels;
    }
  }

  /** `build_am_data`: relabels the frame 1..n in place, computes the scale, sorts by
      start date and emits the five trace lists. */
  method BuildAmData(cases: Series, frame: ActionFrame) returns (traces: seq<Segment>)
    requires frame.Valid() && frame.rows != [] && Loaded(frame.rows)
    modifies frame
    ensures frame.Valid() && frame.rows == old(frame.rows)
    ensures frame.index == Labels(|frame.rows|)
    ensures traces == Layout(Scale(cases, |frame.rows|), SortByStart(Number(frame.rows)))
  {
    frame.index := Labels(|frame.rows|);
    var scale := Scale(cases, |frame.rows|);
    var sorted := SortByStart(Zip(frame.index, frame.rows));
    traces := Layout(scale, sorted);
  }

  /** The action at input position j (0-based) keeps label j + 1 through the sort: in each of
      the five trace lists it sits at the same place, at level scale * (j + 1), with the
      start line at its start, the effect line 15 days later (both running from the level
      down to 0), and the pending, active and tail markers over [start, start + 15],
      [start + 15, end] and [start + 15, end + 15]. */
  lemma LevelFollowsInputPosition(scale: real, rows: seq<ActionRow>, j: nat)
    requires Loaded(rows) && j < |rows|
    ensures exists i :: 0 <= i < |rows| && SortByStart(Number(rows))[i] == Labeled(j + 1, rows[j])
    ensures var sorted := SortByStart(Number(rows));
      forall i :: 0 <= i < |sorted| && sorted[i] == Labeled(j + 1, rows[j]) ==>
        SegmentsAt(Layout(scale, sorted), |sorted|, i, Level(scale, j + 1), rows[j].start.value, rows[j].end.value)
  {
    var found := FindSorted(rows, j);
    var numbered := Number(rows);
    assert LabeledLoaded(numbered);
    var sorted := SortByStart(numbered);
    SegmentsOfLabel(scale, sorted, j + 1, rows[j]);
  }

  /** Wherever a row carrying label k sits, it is drawn at level scale * k. */
  lemma SegmentsOfLabel(scale: real, xs: seq<Labeled>, k: int, row: ActionRow)
    requires LabeledLoaded(xs)
    ensures forall i :: 0 <= i < |xs| && xs[i] == Labeled(k, row) ==>
      SegmentsAt(Layout(scale, xs), |xs|, i, Level(scale, k), row.start.value, row.end.value)
  {
    forall i | 0 <= i < |xs| && xs[i] == Labeled(k, row)
      ensures SegmentsAt(Layout(scale, xs), |xs|, i, Level(scale, k), row.start.value, row.end.value)
    {
      LabeledSegments(scale, xs, k, row, i);
    }
  }

  /** The five segments of an action drawn at the given level, at offsets i, n + i, ..., 4n + i:
      the start line at its start and the effect line 15 days later, both from the level down
      to 0, then the pending, active and tail markers over [start, start + 15],
      [start + 15, end] and [start + 15, end + 15]. */
  predicate SegmentsAt(out: seq<Segment>, n: nat, i: nat, level: real, s: Day, e: Day) {
    && i < n && |out| == 5 * n
    && out[i] == Segment(s, s, level, 0.0)
    && out[n + i] == Segment(s + EffectLag, s + EffectLag, level, 0.0)
    && out[2 * n + i] == Segment(s, s + EffectLag, level, level)
    && out[3 * n + i] == Segment(s + EffectLag, e, level, level)
    && out[4 * n + i] == Segment(s + EffectLag, e + EffectLag, level, level)
  }

  /** A row carrying label k is drawn at level scale * k. */
  lemma LabeledSegments(scale: real, xs: seq<Labeled>, k: int, row: ActionRow, i: nat)
    requires LabeledLoaded(xs) && i < |xs| && xs[i] == Labeled(k, row)
    ensures SegmentsAt(Layout(scale, xs), |xs|, i, Level(scale, k), row.start.value, row.end.value)
  {
    LayoutAt(scale, xs, i);
  }

  /** Sorting moves the row labelled j + 1 somewhere; this finds where. */
  lemma FindSorted(rows: seq<ActionRow>, j: nat) returns (i: nat)
    requires Loaded(rows) && j < |rows|
    ensures i < |rows| && SortByStart(Number(rows))[i] == Labeled(j + 1, rows[j])
  {
    var numbered := Number(rows);
    var sorted := SortByStart(numbered);
    assert numbered[j] == Labeled(j + 1, rows[j]);
    assert multiset(sorted)[numbered[j]] > 0;
    i :| 0 <= i < |sorted| && sorted[i] == numbered[j];
  }

  /** Each trace list is emitted in ascending order of start date. */
  lemma TracesInStartOrder(scale: real, rows: seq<ActionRow>, i: nat, i': nat)
    requires Loaded(rows) && i < i' < |rows|
    ensures var n := |rows|;
      var out := Layout(scale, SortByStart(Number(rows)));
      && out[i].x0 <= out[i'].x0
      && out[n + i].x0 <= out[n + i'].x0
      && out[2 * n + i].x0 <= out[2 * n + i'].x0
      && out[3 * n + i].x0 <= out[3 * n + i'].x0
      && out[4 * n + i].x0 <= out[4 * n + i'].x0
  {
    var sorted := SortByStart(Number(rows));
    LayoutAt(scale, sorted, i);
    LayoutAt(scale, sorted, i');
  }

  /** Two actions given in the order (starts day 10, starts day 5): the later-starting one
      is emitted second but keeps level 1 * scale, the earlier-starting one level 2 * scale. */
  lemma LevelIsNotRankExample(a: ActionRow, b: ActionRow)
    requires Complete(a) && Complete(b) && a.start == Some(10) && b.start == Some(5)
    ensures var out := Layout(Scale([], 2), SortByStart(Number([a, b])));
      out[0].x0 == 5 && out[0].y0 == 4.0 && out[1].x0 == 10 && out[1].y0 == 2.0
  {
    var sorted := SortByStart(Number([a, b]));
    SortTwo(a, b);
    LabeledSegments(2.0, sorted, 2, b, 0);
    LabeledSegments(2.0, sorted, 1, a, 1);
    assert Level(2.0, 2) == 4.0 && Level(2.0, 1) == 2.0;
  }

  /** Sorting the two actions above swaps them. */
  lemma SortTwo(a: ActionRow, b: ActionRow)
    requires Complete(a) && Complete(b) && a.start == Some(10) && b.start == Some(5)
    ensures SortByStart(Number([a, b])) == [Labeled(2, b), Labeled(1, a)]
  {
    var numbered := Number([a, b]);
    assert numbered == [Labeled(1, a), Labeled(2, b)];
    assert numbered[..1] == [Labeled(1, a)];
    assert SortByStart([Labeled(1, a)]) == [Labeled(1, a)] by {
      assert [Labeled(1, a)][..0] == [];
    }
  }
}
