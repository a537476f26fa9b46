/**
 * The list of regions offered for selection: every country of the case data
 * and every location of the action data, sorted and without duplicates, as
 * `np.unique` returns them.
 */
module RegionList {
  import opened Wrappers
  import opened Records

  /** Code-point lexicographic order on names, as NumPy compares unicode strings. */
  predicate Less(a: string, b: string)
    decreases |a|
  {
    if a == [] then b != []
    else b != [] && (a[0] < b[0] || (a[0] == b[0] && Less(a[1..], b[1..])))
  }

  lemma {:induction false} LessIrreflexive(a: string)
    ensures !Less(a, a)
    decreases |a|
  {
    if a != [] {
      LessIrreflexive(a[1..]);
    }
  }

  lemma {:induction false} LessTransitive(a: string, b: string, c: string)
    requires Less(a, b) && Less(b, c)
    ensures Less(a, c)
    decreases |a|
  {
    if a != [] && a[0] == b[0] && b[0] == c[0] {
      LessTransitive(a[1..], b[1..], c[1..]);
    }
  }

  /** Any two different names are ordered one way or the other. */
  lemma {:induction false} LessTotal(a: string, b: string)
    requires a != b
    ensures Less(a, b) || Less(b, a)
    decreases |a|
  {
    if a != [] && b != [] && a[0] == b[0] {
      assert a == [a[0]] + a[1..] && b == [b[0]] + b[1..];
      LessTotal(a[1..], b[1..]);
    }
  }

  /** The names a list holds. */
  function Elems(s: seq<string>): set<string> {
    set k | k in s
  }

  /** Strictly ascending, hence free of duplicates. */
  predicate StrictlySorted(s: seq<string>) {
    forall i, j :: 0 <= i < j < |s| ==> Less(s[i], s[j])
  }

  /** Inserts a name into a strictly sorted list unless it is already there. */
  function InsertUnique(x: string, s: seq<string>): (r: seq<string>)
    requires StrictlySorted(s)
    ensures StrictlySorted(r)
    ensures Elems(r) == Elems(s) + {x}
    ensures r != [] && (r[0] == x || (s != [] && r[0] == s[0]))
  {
    if s == [] then [x]
    else if x == s[0] then s
    else if Less(x, s[0]) then
      PrependSorted(x, s);
      [x] + s
    else
      LessTotal(x, s[0]);
      var rest := InsertUnique(x, s[1..]);
      assert Less(s[0], rest[0]);
      PrependSorted(s[0], rest);
      assert s == [s[0]] + s[1..];
      assert Elems(s) == {s[0]} + Elems(s[1..]);
      assert Elems([s[0]] + rest) == {s[0]} + Elems(rest);
      [s[0]] + rest
  }

  /** A name below the head of a strictly sorted list can go in front of it. */
  lemma PrependSorted(x: string, s: seq<string>)
    requires StrictlySorted(s) && s != [] && Less(x, s[0])
    ensures StrictlySorted([x] + s)
  {
    var r := [x] + s;
    forall i, j | 0 <= i < j < |r| ensures Less(r[i], r[j]) {
      assert r[j] == s[j - 1];
      if i == 0 {
        if j > 1 {
          LessTransitive(x, s[0], s[j - 1]);
        }
      } else {
        assert r[i] == s[i - 1];
      }
    }
  }

  /** `np.unique`: the distinct names in ascending order. */
  function Unique(names: seq<string>): (r: seq<string>)
    ensures StrictlySorted(r)
    ensures Elems(r) == Elems(names)
  {
    if names == [] then []
    else
      var prefix := names[..|names| - 1];
      assert names == prefix + [names[|names| - 1]];
      InsertUnique(names[|names| - 1], Unique(prefix))
  }

  function Countries(cases: seq<CaseRecord>): (r: seq<string>)
    ensures |r| == |cases| && forall i :: 0 <= i < |cases| ==> r[i] == cases[i].country
  {
    seq(|cases|, i requires 0 <= i < |cases| => cases[i].country)
  }

  function Locations(actions: seq<ActionRow>): (r: seq<string>)
    requires Loaded(actions)
    ensures |r| == |actions| && forall i :: 0 <= i < |actions| ==> Some(r[i]) == actions[i].location
  {
    seq(|actions|, i requires 0 <= i < |actions| && actions[i].location.Some? => actions[i].location.value)
  }

  /** `relevant_countries`: the regions of either table, each once, in ascending order. */
  function RelevantRegions(cases: seq<CaseRecord>, actions: seq<ActionRow>): (r: seq<string>)
    requires Loaded(actions)
    ensures StrictlySorted(r)
    ensures forall name :: name in r <==> name in Countries(cases) || name in Locations(actions)
  {
    var names := Countries(cases) + Locations(actions);
    var r := Unique(names);
    assert forall name :: (name in r <==> name in Elems(r)) && (name in names <==> name in Elems(names));
    r
  }

  /** The list holds exactly the case countries and the action locations, sorted, each once. */
  lemma RelevantRegionsContents(cases: seq<CaseRecord>, actions: seq<ActionRow>)
    requires Loaded(actions)
    ensures StrictlySorted(RelevantRegions(cases, actions))
    ensures forall name :: name in RelevantRegions(cases, actions) <==>
      (exists c :: c in cases && c.country == name) ||
      (exists i :: 0 <= i < |actions| && actions[i].location == Some(name))
  {
    var names := Countries(cases) + Locations(actions);
    var r := RelevantRegions(cases, actions);
    assert forall name :: name in r <==> name in names by {
      forall name ensures name in r <==> name in names {
        assert name in r <==> name in Elems(r);
      }
    }
    forall name
      ensures name in names <==>
        (exists c :: c in cases && c.country == name) ||
        (exists i :: 0 <= i < |actions| && actions[i].location == Some(name))
    {
      if name in Countries(cases) {
        var i :| 0 <= i < |cases| && Countries(cases)[i] == name;
        assert cases[i] in cases;
      }
      if name in Locations(actions) {
        var i :| 0 <= i < |actions| && Locations(actions)[i] == name;
      }
      if exists c :: c in cases && c.country == name {
        var c :| c in cases && c.country == name;
        var i :| 0 <= i < |cases| && cases[i] == c;
        assert Countries(cases)[i] == name;
      }
      if exists i :: 0 <= i < |actions| && actions[i].location == Some(name) {
        var i :| 0 <= i < |actions| && actions[i].location == Some(name);
        assert Locations(actions)[i] == name;
      }
    }
  }

  /** Two names are never below each other both ways. */
  lemma LessAsymmetric(a: string, b: string)
    ensures Less(a, b) ==> !Less(b, a)
  {
    if Less(a, b) && Less(b, a) {
      LessTransitive(a, b, a);
      LessIrreflexive(a);
    }
  }

  /** The head of a strictly sorted list is below every other element. */
  lemma HeadIsLeast(s: seq<string>, k: string)
    requires StrictlySorted(s) && k in s
    ensures s[0] == k || Less(s[0], k)
  {
    var i :| 0 <= i < |s| && s[i] == k;
    if i > 0 {
      assert Less(s[0], s[i]);
    }
  }

  /** A strictly sorted list is fixed by its elements: the list is the only one np.unique could return. */
  lemma {:induction false} SortedListDeterminedBySet(a: seq<string>, b: seq<string>)
    requires StrictlySorted(a) && StrictlySorted(b)
    requires Elems(a) == Elems(b)
    ensures a == b
    decreases |a|
  {
    if a != [] {
      assert a[0] in Elems(a);
    }
    if b != [] {
      assert b[0] in Elems(b);
    }
    if a != [] && b != [] {
      HeadIsLeast(a, b[0]);
      HeadIsLeast(b, a[0]);
      LessAsymmetric(a[0], b[0]);
      var a', b' := a[1..], b[1..];
      forall k ensures k in a' <==> k in b' {
        LessIrreflexive(k);
        if k in a' {
          var i :| 0 <= i < |a'| && a'[i] == k;
          assert a[i + 1] == k;
          assert k in Elems(a);
        }
        if k in b' {
          var i :| 0 <= i < |b'| && b'[i] == k;
          assert b[i + 1] == k;
          assert k in Elems(b);
        }
      }
      assert Elems(a') == Elems(b');
      SortedListDeterminedBySet(a', b');
      assert a == [a[0]] + a' && b == [b[0]] + b';
    }
  }
}
