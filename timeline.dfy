/**
 * The global daily timeline: every day from the earliest case date or action
 * start to the latest case date or action end, computed once over all cases
 * and all loaded actions.
 */
module Timeline {
  import opened Wrappers
  import opened Records

  /** Python's builtin min()/max() raise ValueError on an empty column. */
  datatype TimelineError = NoCases | NoActions

  /** The smallest element, as the builtin min() returns it. */
  function MinOf(s: seq<int>): (m: int)
    requires s != []
    ensures m in s
    ensures forall i :: 0 <= i < |s| ==> m <= s[i]
  {
    if |s| == 1 then s[0]
    else
      var m := MinOf(s[..|s| - 1]);
      assert m in s;
      if s[|s| - 1] < m then s[|s| - 1] else m
  }

  /** The largest element, as the builtin max() returns it. */
  function MaxOf(s: seq<int>): (m: int)
    requires s != []
    ensures m in s
    ensures forall i :: 0 <= i < |s| ==> s[i] <= m
  {
    if |s| == 1 then s[0]
    else
      var m := MaxOf(s[..|s| - 1]);
      assert m in s;
      if s[|s| - 1] > m then s[|s| - 1] else m
  }

  /** `pd.date_range(start=lo, end=hi)`: every day from lo to hi, both included. */
  function DateRange(lo: Day, hi: Day): (r: seq<Day>)
    requires lo <= hi
    ensures |r| == hi - lo + 1
    ensures r[0] == lo && r[|r| - 1] == hi
    ensures forall i :: 0 <= i < |r| - 1 ==> r[i + 1] == r[i] + 1
    ensures forall d :: d in r <==> lo <= d <= hi
  {
    var r := seq(hi - lo + 1, i requires 0 <= i <= hi - lo => lo + i);
    assert forall d :: lo <= d <= hi ==> d in r by {
      forall d | lo <= d <= hi ensures d in r {
        assert r[d - lo] == d;
      }
    }
    r
  }

  /** The earliest day of the timeline. */
  function Earliest(cases: seq<CaseRecord>, actions: seq<ActionRow>): (r: Day)
    requires cases != [] && actions != [] && Loaded(actions)
    ensures forall i :: 0 <= i < |cases| ==> r <= cases[i].stamp
    ensures forall i :: 0 <= i < |actions| ==> r <= actions[i].start.value
  {
    var c := MinOf(CaseDays(cases));
    var a := MinOf(Starts(actions));
    if c <= a then c else a
  }

  /** The latest day of the timeline. */
  function Latest(cases: seq<CaseRecord>, actions: seq<ActionRow>): (r: Day)
    requires cases != [] && actions != [] && Loaded(actions)
    ensures forall i :: 0 <= i < |cases| ==> cases[i].stamp <= r
    ensures forall i :: 0 <= i < |actions| ==> actions[i].end.value <= r
  {
    var c := MaxOf(CaseDays(cases));
    var a := MaxOf(Ends(actions));
    if c >= a then c else a
  }

  /** `create_timeline`: fails where the builtin min() would raise. */
  function CreateTimeline(cases: seq<CaseRecord>, actions: seq<ActionRow>): (r: Result<seq<Day>, TimelineError>)
    requires Loaded(actions)
    ensures r.Failure? <==> cases == [] || actions == []
    ensures r.Failure? ==> r.error == if cases == [] then NoCases else NoActions
  {
    if cases == [] then Failure(NoCases)
    else if actions == [] then Failure(NoActions)
    else
      assert MinOf(CaseDays(cases)) <= CaseDays(cases)[0] <= MaxOf(CaseDays(cases));
      Success(DateRange(Earliest(cases, actions), Latest(cases, actions)))
  }

  /** The timeline contains every case date, and both dates of every action that does
      not end before it starts. */
  lemma TimelineCovers(cases: seq<CaseRecord>, actions: seq<ActionRow>)
    requires cases != [] && actions != [] && Loaded(actions)
    ensures CreateTimeline(cases, actions).Success?
    ensures forall c :: c in cases ==> c.stamp in CreateTimeline(cases, actions).value
    ensures forall i :: 0 <= i < |actions| && actions[i].start.value <= actions[i].end.value ==>
      actions[i].start.value in CreateTimeline(cases, actions).value &&
      actions[i].end.value in CreateTimeline(cases, actions).value
  {
    var t := CreateTimeline(cases, actions).value;
    var lo, hi := Earliest(cases, actions), Latest(cases, actions);
    forall c | c in cases ensures c.stamp in t {
      var k :| 0 <= k < |cases| && cases[k] == c;
      assert CaseDays(cases)[k] == c.stamp;
    }
    forall i | 0 <= i < |actions| && actions[i].start.value <= actions[i].end.value
      ensures actions[i].start.value in t && actions[i].end.value in t
    {
      assert Starts(actions)[i] == actions[i].start.value;
      assert Ends(actions)[i] == actions[i].end.value;
      assert lo <= MinOf(Starts(actions)) <= actions[i].start.value;
      assert actions[i].end.value <= MaxOf(Ends(actions)) <= hi;
    }
  }

  /** The timeline is no longer than it must be: its first day is a case date or an
      action start, its last day a case date or an action end. */
  lemma TimelineTight(cases: seq<CaseRecord>, actions: seq<ActionRow>)
    requires cases != [] && actions != [] && Loaded(actions)
    ensures CreateTimeline(cases, actions).Success?
    ensures var t := CreateTimeline(cases, actions).value;
      (exists c :: c in cases && c.stamp == t[0]) || (exists i :: 0 <= i < |actions| && actions[i].start == Some(t[0]))
    ensures var t := CreateTimeline(cases, actions).value;
      (exists c :: c in cases && c.stamp == t[|t| - 1]) || (exists i :: 0 <= i < |actions| && actions[i].end == Some(t[|t| - 1]))
  {
    var t := CreateTimeline(cases, actions).value;
    var days, starts, ends := CaseDays(cases), Starts(actions), Ends(actions);
    var k :| 0 <= k < |days| && days[k] == MinOf(days);
    assert cases[k].stamp == MinOf(days);
    var j :| 0 <= j < |starts| && starts[j] == MinOf(starts);
    assert actions[j].start == Some(MinOf(starts));
    var k' :| 0 <= k' < |days| && days[k'] == MaxOf(days);
    assert cases[k'].stamp == MaxOf(days);
    var j' :| 0 <= j' < |ends| && ends[j'] == MaxOf(ends);
    assert actions[j'].end == Some(MaxOf(ends));
  }

  /** Its length is latest - earliest + 1 and consecutive days differ by one. */
  lemma TimelineLength(cases: seq<CaseRecord>, actions: seq<ActionRow>)
    requires cases != [] && actions != [] && Loaded(actions)
    ensures CreateTimeline(cases, actions).Success?
    ensures var t := CreateTimeline(cases, actions).value;
      && |t| == Latest(cases, actions) - Earliest(cases, actions) + 1
      && forall i :: 0 <= i < |t| ==> t[i] == Earliest(cases, actions) + i
  {
    var t := CreateTimeline(cases, actions).value;
    var lo := Earliest(cases, actions);
    forall i | 0 <= i < |t| ensures t[i] == lo + i {
      StepsOfOne(t, i);
    }
  }

  /** A sequence that grows by one per step holds its first element plus the index. */
  lemma {:induction false} StepsOfOne(t: seq<int>, i: nat)
    requires i < |t|
    requires forall k :: 0 <= k < |t| - 1 ==> t[k + 1] == t[k] + 1
    ensures t[i] == t[0] + i
  {
    if i > 0 {
      StepsOfOne(t, i - 1);
    }
  }
}
