/**
 * Restricting the data to one region: its case records are summed per date
 * (the grouped frame, one row per distinct timestamp in ascending order) and
 * its actions are those whose location is the region.
 */
module RegionFilter {
  import opened Wrappers
  import opened Records

  /** One row of the grouped case frame. */
  datatype DayTotal = DayTotal(stamp: Day, infected: int, deaths: int)

  /** The grouped case frame, indexed by timestamp. */
  type Series = seq<DayTotal>

  /** Timestamps strictly ascending: one row per distinct timestamp, in order. */
  predicate Ascending(s: Series) {
    forall i, j :: 0 <= i < j < |s| ==> s[i].stamp < s[j].stamp
  }

  /** The row of the grouped frame whose index is `t`, if any. */
  function Lookup(s: Series, t: Day): (r: Option<DayTotal>)
    ensures r.Some? ==> r.value in s && r.value.stamp == t
    ensures r.None? <==> forall i :: 0 <= i < |s| ==> s[i].stamp != t
  {
    if s == [] then None
    else if s[0].stamp == t then Some(s[0])
    else Lookup(s[1..], t)
  }

  // ---------------------------------------------------------------------------
  // Reference sums
  // ---------------------------------------------------------------------------

  /** The timestamps at which the region has at least one record. */
  function RegionStamps(cases: seq<CaseRecord>, country: string): set<Day> {
    set c | c in cases && c.country == country :: c.stamp
  }

  /** Sum of `infected` over the region's records at timestamp `t`. */
  function InfectedOn(cases: seq<CaseRecord>, country: string, t: Day): int {
    if cases == [] then 0
    else
      var c := cases[|cases| - 1];
      InfectedOn(cases[..|cases| - 1], country, t) + (if c.country == country && c.stamp == t then c.infected else 0)
  }

  /** Sum of `deaths` over the region's records at timestamp `t`. */
  function DeathsOn(cases: seq<CaseRecord>, country: string, t: Day): int {
    if cases == [] then 0
    else
      var c := cases[|cases| - 1];
      DeathsOn(cases[..|cases| - 1], country, t) + (if c.country == country && c.stamp == t then c.deaths else 0)
  }

  /** What the grouped frame should hold at timestamp `t`: the sums where the region has a record, nothing elsewhere. */
  function RegionTotal(cases: seq<CaseRecord>, country: string, t: Day): Option<DayTotal> {
    if t in RegionStamps(cases, country)
    then Some(DayTotal(t, InfectedOn(cases, country, t), DeathsOn(cases, country, t)))
    else None
  }

  /** The sums are additive over any split of the records. */
  lemma {:induction false} SumsAdditive(xs: seq<CaseRecord>, ys: seq<CaseRecord>, country: string, t: Day)
    ensures InfectedOn(xs + ys, country, t) == InfectedOn(xs, country, t) + InfectedOn(ys, country, t)
    ensures DeathsOn(xs + ys, country, t) == DeathsOn(xs, country, t) + DeathsOn(ys, country, t)
    decreases |ys|
  {
    if ys == [] {
      assert xs + ys == xs;
    } else {
      var ys' := ys[..|ys| - 1];
      assert (xs + ys)[..|xs + ys| - 1] == xs + ys';
      SumsAdditive(xs, ys', country, t);
    }
  }

  // ---------------------------------------------------------------------------
  // Grouping
  // ---------------------------------------------------------------------------

  function Plus(e: Option<DayTotal>, d: DayTotal): DayTotal {
    match e
    case None => d
    case Some(x) => DayTotal(x.stamp, x.infected + d.infected, x.deaths + d.deaths)
  }

  lemma LookupBelow(s: Series, t: Day)
    requires Ascending(s) && s != [] && t < s[0].stamp
    ensures Lookup(s, t) == None
    decreases |s|
  {
    if |s| > 1 {
      LookupBelow(s[1..], t);
    }
  }

  /** Adds one record's counts into the grouped frame at its timestamp. */
  function Add(s: Series, d: DayTotal): (r: Series)
    requires Ascending(s)
    ensures Ascending(r)
    ensures r != [] && (r[0].stamp == d.stamp || (s != [] && r[0].stamp == s[0].stamp))
    ensures forall t :: Lookup(r, t) == if t == d.stamp then Some(Plus(Lookup(s, t), d)) else Lookup(s, t)
    decreases |s|
  {
    if s == [] then [d]
    else if s[0].stamp == d.stamp then [Plus(Some(s[0]), d)] + s[1..]
    else if d.stamp < s[0].stamp then
      LookupBelow(s, d.stamp);
      [d] + s
    else
      var rest := Add(s[1..], d);
      assert forall j :: 0 <= j < |rest| ==> rest[0].stamp <= rest[j].stamp;
      [s[0]] + rest
  }

  /** `df_cases[df_cases['country'] == country].groupby(['timestamp']).sum()`. */
  function RegionSeries(cases: seq<CaseRecord>, country: string): (s: Series)
    ensures Ascending(s)
    ensures forall t :: Lookup(s, t) == RegionTotal(cases, country, t)
  {
    if cases == [] then []
    else
      var prefix, c := cases[..|cases| - 1], cases[|cases| - 1];
      var g := RegionSeries(prefix, country);
      assert cases == prefix + [c];
      GroupStep(prefix, c, country, g);
      if c.country == country then Add(g, DayTotal(c.stamp, c.infected, c.deaths)) else g
  }

  /** One more record: adding it to the frame of the earlier records gives the frame of all. */
  lemma GroupStep(prefix: seq<CaseRecord>, c: CaseRecord, country: string, g: Series)
    requires Ascending(g)
    requires forall t :: Lookup(g, t) == RegionTotal(prefix, country, t)
    ensures c.country == country ==>
      forall t :: Lookup(Add(g, DayTotal(c.stamp, c.infected, c.deaths)), t) == RegionTotal(prefix + [c], country, t)
    ensures c.country != country ==> forall t :: Lookup(g, t) == RegionTotal(prefix + [c], country, t)
  {
    var d := DayTotal(c.stamp, c.infected, c.deaths);
    forall t ensures c.country == country ==> Lookup(Add(g, d), t) == RegionTotal(prefix + [c], country, t)
    {
      GroupStepAt(prefix, c, country, g, t);
    }
    forall t ensures c.country != country ==> Lookup(g, t) == RegionTotal(prefix + [c], country, t)
    {
      GroupStepAt(prefix, c, country, g, t);
    }
  }

  /** GroupStep at one timestamp. */
  lemma GroupStepAt(prefix: seq<CaseRecord>, c: CaseRecord, country: string, g: Series, t: Day)
    requires Ascending(g)
    requires Lookup(g, t) == RegionTotal(prefix, country, t)
    ensures c.country == country ==>
      Lookup(Add(g, DayTotal(c.stamp, c.infected, c.deaths)), t) == RegionTotal(prefix + [c], country, t)
    ensures c.country != country ==> Lookup(g, t) == RegionTotal(prefix + [c], country, t)
  {
    StampsStep(prefix, c, country);
    SumsStep(prefix, c, country, t);
    if c.country == country {
      var d := DayTotal(c.stamp, c.infected, c.deaths);
      assert Lookup(Add(g, d), t) == if t == d.stamp then Some(Plus(Lookup(g, t), d)) else Lookup(g, t);
      if t == c.stamp {
        SumsOutside(prefix, country, t);
      }
    }
  }

  lemma StampsStep(prefix: seq<CaseRecord>, c: CaseRecord, country: string)
    ensures RegionStamps(prefix + [c], country) ==
      RegionStamps(prefix, country) + (if c.country == country then {c.stamp} else {})
  {
  }

  lemma SumsStep(prefix: seq<CaseRecord>, c: CaseRecord, country: string, t: Day)
    ensures InfectedOn(prefix + [c], country, t) ==
      InfectedOn(prefix, country, t) + (if c.country == country && c.stamp == t then c.infected else 0)
    ensures DeathsOn(prefix + [c], country, t) ==
      DeathsOn(prefix, country, t) + (if c.country == country && c.stamp == t then c.deaths else 0)
  {
    assert (prefix + [c])[..|prefix|] == prefix;
  }

  /** At a timestamp where the region has no record, both sums are zero. */
  lemma {:induction false} SumsOutside(cases: seq<CaseRecord>, country: string, t: Day)
    ensures t !in RegionStamps(cases, country) ==>
      InfectedOn(cases, country, t) == 0 && DeathsOn(cases, country, t) == 0
  {
    if cases != [] && t !in RegionStamps(cases, country) {
      var prefix := cases[..|cases| - 1];
      assert RegionStamps(prefix, country) <= RegionStamps(cases, country) by {
        forall c | c in prefix ensures c in cases { }
      }
      SumsOutside(prefix, country, t);
    }
  }

  /** A present timestamp is found at its own row. */
  lemma LookupFinds(s: Series, i: nat)
    requires Ascending(s) && i < |s|
    ensures Lookup(s, s[i].stamp) == Some(s[i])
    decreases i
  {
    if i > 0 {
      LookupFinds(s[1..], i - 1);
    }
  }

  /** Whatever lookup returns is a row of the frame, at the timestamp asked for. */
  lemma LookupSound(s: Series, t: Day)
    requires Lookup(s, t).Some?
    ensures Lookup(s, t).value in s && Lookup(s, t).value.stamp == t
    decreases |s|
  {
    if s[0].stamp != t {
      LookupSound(s[1..], t);
    }
  }

  /** Each row of the grouped frame sums the region's records at its timestamp, and the
      timestamps of the rows are exactly those of the region's records. */
  lemma SeriesRows(cases: seq<CaseRecord>, country: string)
    ensures var s := RegionSeries(cases, country);
      forall i :: 0 <= i < |s| ==>
        s[i].stamp in RegionStamps(cases, country) &&
        s[i] == DayTotal(s[i].stamp, InfectedOn(cases, country, s[i].stamp), DeathsOn(cases, country, s[i].stamp))
    ensures var s := RegionSeries(cases, country);
      forall c :: c in cases && c.country == country ==> exists i :: 0 <= i < |s| && s[i].stamp == c.stamp
  {
    var s := RegionSeries(cases, country);
    forall i | 0 <= i < |s|
      ensures s[i].stamp in RegionStamps(cases, country)
      ensures s[i] == DayTotal(s[i].stamp, InfectedOn(cases, country, s[i].stamp), DeathsOn(cases, country, s[i].stamp))
    {
      LookupFinds(s, i);
    }
    forall c | c in cases && c.country == country ensures exists i :: 0 <= i < |s| && s[i].stamp == c.stamp {
      assert c.stamp in RegionStamps(cases, country);
      LookupSound(s, c.stamp);
      var e := Lookup(s, c.stamp).value;
      var i :| 0 <= i < |s| && s[i] == e;
    }
  }

  /** Two ascending frames that answer every lookup alike are the same frame. */
  lemma {:induction false} SeriesDeterminedByLookup(s1: Series, s2: Series)
    requires Ascending(s1) && Ascending(s2)
    requires forall t :: Lookup(s1, t) == Lookup(s2, t)
    ensures s1 == s2
    decreases |s1| + |s2|
  {
    if s1 != [] {
      LookupFinds(s1, 0);
    }
    if s2 != [] {
      LookupFinds(s2, 0);
    }
    if s1 != [] && s2 != [] {
      LookupSound(s2, s1[0].stamp);
      LookupSound(s1, s2[0].stamp);
      var i :| 0 <= i < |s2| && s2[i] == s1[0];
      var j :| 0 <= j < |s1| && s1[j] == s2[0];
      assert s1[0] == s2[0];
      forall t ensures Lookup(s1[1..], t) == Lookup(s2[1..], t) {
        if t == s1[0].stamp {
          if |s1| > 1 { LookupBelow(s1[1..], t); }
          if |s2| > 1 { LookupBelow(s2[1..], t); }
        } else {
          assert Lookup(s1, t) == Lookup(s2, t);
        }
      }
      SeriesDeterminedByLookup(s1[1..], s2[1..]);
    }
  }

  /** Records of other regions contribute nothing, wherever they stand. */
  lemma OtherRegionIgnored(xs: seq<CaseRecord>, c: CaseRecord, ys: seq<CaseRecord>, country: string)
    requires c.country != country
    ensures RegionSeries(xs + [c] + ys, country) == RegionSeries(xs + ys, country)
  {
    var s1, s2 := RegionSeries(xs + [c] + ys, country), RegionSeries(xs + ys, country);
    assert RegionStamps(xs + [c] + ys, country) == RegionStamps(xs + ys, country) by {
      assert forall r :: r in xs + [c] + ys && r.country == country <==> r in xs + ys && r.country == country;
    }
    forall t ensures Lookup(s1, t) == Lookup(s2, t) {
      OtherRegionSums(xs, c, ys, country, t);
    }
    SeriesDeterminedByLookup(s1, s2);
  }

  /** The sums of the region at one timestamp do not see a record of another region. */
  lemma OtherRegionSums(xs: seq<CaseRecord>, c: CaseRecord, ys: seq<CaseRecord>, country: string, t: Day)
    requires c.country != country
    ensures InfectedOn(xs + [c] + ys, country, t) == InfectedOn(xs + ys, country, t)
    ensures DeathsOn(xs + [c] + ys, country, t) == DeathsOn(xs + ys, country, t)
  {
    var xc := xs + [c];
    assert xs + [c] + ys == xc + ys;
    SumsAdditive(xc, ys, country, t);
    SumsAdditive(xs, [c], country, t);
    SumsAdditive(xs, ys, country, t);
    assert [c][..0] == [];
    assert InfectedOn([c], country, t) == InfectedOn([], country, t) + 0;
    assert DeathsOn([c], country, t) == DeathsOn([], country, t) + 0;
  }

  /** Two records of the region at the same timestamp add up in the grouped frame. */
  lemma SameDayRecordsAdd(c1: CaseRecord, c2: CaseRecord)
    requires c1.country == c2.country && c1.stamp == c2.stamp
    ensures RegionSeries([c1, c2], c1.country) == [DayTotal(c1.stamp, c1.infected + c2.infected, c1.deaths + c2.deaths)]
  {
    var s := RegionSeries([c1, c2], c1.country);
    var expected := [DayTotal(c1.stamp, c1.infected + c2.infected, c1.deaths + c2.deaths)];
    assert [c1, c2][..1] == [c1];
    assert [c1][..0] == [];
    assert RegionStamps([c1, c2], c1.country) == {c1.stamp};
    assert InfectedOn([c1], c1.country, c1.stamp) == c1.infected;
    assert DeathsOn([c1], c1.country, c1.stamp) == c1.deaths;
    assert InfectedOn([c1, c2], c1.country, c1.stamp) == c1.infected + c2.infected;
    assert DeathsOn([c1, c2], c1.country, c1.stamp) == c1.deaths + c2.deaths;
    forall t ensures Lookup(s, t) == Lookup(expected, t) {
      if t != c1.stamp {
        assert Lookup(expected, t) == Lookup([], t);
      }
    }
    SeriesDeterminedByLookup(s, expected);
  }

  // ---------------------------------------------------------------------------
  // Actions of the region
  // ---------------------------------------------------------------------------

  /** `df_actions[df_actions['location'] == country]`, in table order. */
  function RegionActions(actions: seq<ActionRow>, country: string): (r: seq<ActionRow>)
    ensures forall a :: multiset(r)[a] == if a.location == Some(country) then multiset(actions)[a] else 0
    ensures Loaded(actions) ==> Loaded(r)
  {
    if actions == [] then []
    else
      var r := RegionActions(actions[..|actions| - 1], country);
      var a := actions[|actions| - 1];
      assert actions == actions[..|actions| - 1] + [a];
      if a.location == Some(country) then r + [a] else r
  }

  /** The filter keeps the relative order of the rows it keeps. */
  lemma {:induction false} RegionActionsAppend(xs: seq<ActionRow>, ys: seq<ActionRow>, country: string)
    ensures RegionActions(xs + ys, country) == RegionActions(xs, country) + RegionActions(ys, country)
    decreases |ys|
  {
    if ys == [] {
      assert xs + ys == xs;
    } else {
      var ys' := ys[..|ys| - 1];
      assert (xs + ys)[..|xs + ys| - 1] == xs + ys';
      RegionActionsAppend(xs, ys', country);
    }
  }
}
