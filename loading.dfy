/**
 * Loading the action table: missing end dates are filled with the latest known
 * end date, three misspelled region names are rewritten, and rows lacking a
 * field that an action marker needs are dropped.
 */
module ActionLoading {
  import opened Wrappers
  import opened Records

  /** Python's builtin max() raises ValueError on an empty column. */
  datatype LoadError = EmptyTable

  // ---------------------------------------------------------------------------
  // Region-name aliases
  // ---------------------------------------------------------------------------

  const BadenWrong := "Baden-Würtemberg"
  const BadenRight := "Baden-Württemberg"
  const MecklenburgWrong := "Mecklenburg Vorpommern"
  const MecklenburgRight := "Mecklenburg-Vorpommern"
  const NrwWrong := "NRW"
  const NrwRight := "Nordrhein-Westfalen"

  predicate IsAlias(s: string) {
    s == BadenWrong || s == MecklenburgWrong || s == NrwWrong
  }

  /** The alias table: each alias maps to its canonical name, every other text to itself. */
  function Canonical(s: string): string {
    if s == BadenWrong then BadenRight
    else if s == MecklenburgWrong then MecklenburgRight
    else if s == NrwWrong then NrwRight
    else s
  }

  function CanonicalCell(c: Option<string>): Option<string> {
    match c
    case None => None
    case Some(s) => Some(Canonical(s))
  }

  function CanonicalRow(a: ActionRow): ActionRow {
    a.(level := CanonicalCell(a.level), location := CanonicalCell(a.location),
       action := CanonicalCell(a.action), details := CanonicalCell(a.details))
  }

  predicate AliasFreeCell(c: Option<string>) {
    c.None? || !IsAlias(c.value)
  }

  /** No text cell of the row is one of the three aliases. */
  predicate AliasFree(a: ActionRow) {
    AliasFreeCell(a.level) && AliasFreeCell(a.location) &&
    AliasFreeCell(a.action) && AliasFreeCell(a.details)
  }

  /** `DataFrame.replace(from, to)`: every cell equal to `from` becomes `to`. */
  function ReplaceCell(c: Option<string>, from: string, to: string): Option<string> {
    if c == Some(from) then Some(to) else c
  }

  function ReplaceRow(a: ActionRow, from: string, to: string): ActionRow {
    a.(level := ReplaceCell(a.level, from, to), location := ReplaceCell(a.location, from, to),
       action := ReplaceCell(a.action, from, to), details := ReplaceCell(a.details, from, to))
  }

  function Replace(rows: seq<ActionRow>, from: string, to: string): (r: seq<ActionRow>)
    ensures |r| == |rows|
    ensures forall i :: 0 <= i < |rows| ==> r[i] == ReplaceRow(rows[i], from, to)
  {
    seq(|rows|, i requires 0 <= i < |rows| => ReplaceRow(rows[i], from, to))
  }

  /** The three `replace` calls, in the order the loader applies them. */
  function ReplaceAliases(rows: seq<ActionRow>): (r: seq<ActionRow>)
    ensures |r| == |rows|
    ensures forall i :: 0 <= i < |rows| ==>
      r[i].start == rows[i].start && r[i].end == rows[i].end && r[i].stamp == rows[i].stamp
  {
    Replace(Replace(Replace(rows, BadenWrong, BadenRight), MecklenburgWrong, MecklenburgRight),
            NrwWrong, NrwRight)
  }

  lemma ReplaceCellsIsCanonical(c: Option<string>)
    ensures ReplaceCell(ReplaceCell(ReplaceCell(c, BadenWrong, BadenRight),
              MecklenburgWrong, MecklenburgRight), NrwWrong, NrwRight) == CanonicalCell(c)
    ensures AliasFreeCell(CanonicalCell(c))
  {
    assert BadenRight != MecklenburgWrong && BadenRight != NrwWrong;
    assert MecklenburgRight != NrwWrong;
    assert NrwRight != BadenWrong && NrwRight != MecklenburgWrong && NrwRight != NrwWrong;
  }

  /** Applying the replacements one after another is the same as looking every cell up in the alias table. */
  lemma ReplaceAliasesIsCanonical(rows: seq<ActionRow>)
    ensures |ReplaceAliases(rows)| == |rows|
    ensures forall i :: 0 <= i < |rows| ==>
      ReplaceAliases(rows)[i] == CanonicalRow(rows[i]) && AliasFree(ReplaceAliases(rows)[i])
  {
    forall i | 0 <= i < |rows|
      ensures ReplaceAliases(rows)[i] == CanonicalRow(rows[i]) && AliasFree(ReplaceAliases(rows)[i])
    {
      var a := rows[i];
      ReplaceCellsIsCanonical(a.level);
      ReplaceCellsIsCanonical(a.location);
      ReplaceCellsIsCanonical(a.action);
      ReplaceCellsIsCanonical(a.details);
    }
  }

  /** Canonical names are not aliases, so the alias table is idempotent. */
  lemma CanonicalIdempotent(s: string)
    ensures !IsAlias(Canonical(s))
    ensures Canonical(Canonical(s)) == Canonical(s)
  {
    assert BadenRight != MecklenburgWrong && BadenRight != NrwWrong && BadenRight != BadenWrong;
    assert MecklenburgRight != NrwWrong && MecklenburgRight != BadenWrong && MecklenburgRight != MecklenburgWrong;
    assert NrwRight != BadenWrong && NrwRight != MecklenburgWrong && NrwRight != NrwWrong;
  }

  // ---------------------------------------------------------------------------
  // Filling missing end dates
  // ---------------------------------------------------------------------------

  /** The `enddate_action` column as parsed: NaT is `None`. */
  function EndCells(rows: seq<ActionRow>): (r: seq<Option<Day>>)
    ensures |r| == |rows|
    ensures forall i :: 0 <= i < |rows| ==> r[i] == rows[i].end
  {
    seq(|rows|, i requires 0 <= i < |rows| => rows[i].end)
  }

  /** The latest parsed end date, skipping NaT; `None` when nothing parsed. */
  function MaxParsed(ends: seq<Option<Day>>): (m: Option<Day>)
    ensures m.None? <==> forall i :: 0 <= i < |ends| ==> ends[i].None?
    ensures m.Some? ==> exists i :: 0 <= i < |ends| && ends[i] == m
    ensures m.Some? ==> forall i :: 0 <= i < |ends| && ends[i].Some? ==> ends[i].value <= m.value
  {
    if ends == [] then None
    else
      var m := MaxParsed(ends[..|ends| - 1]);
      var e := ends[|ends| - 1];
      if e.None? then m
      else if m.None? || m.value < e.value then e
      else m
  }

  /** `fillna(fill)` on the end-date column. */
  function FillRow(a: ActionRow, fill: Option<Day>): ActionRow {
    a.(end := if a.end.Some? then a.end else fill)
  }

  function FillEnds(rows: seq<ActionRow>, fill: Option<Day>): (r: seq<ActionRow>)
    ensures |r| == |rows|
    ensures forall i :: 0 <= i < |rows| ==> r[i] == FillRow(rows[i], fill)
  {
    seq(|rows|, i requires 0 <= i < |rows| => FillRow(rows[i], fill))
  }

  /** What filling and alias replacement make of one input row. */
  function Prepare(a: ActionRow, fill: Option<Day>): ActionRow {
    CanonicalRow(FillRow(a, fill))
  }

  // ---------------------------------------------------------------------------
  // Dropping incomplete rows
  // ---------------------------------------------------------------------------

  /** `dropna(subset=[...], how="any")`: keeps the complete rows, in order. */
  function DropIncomplete(rows: seq<ActionRow>): (r: seq<ActionRow>)
    ensures Loaded(r)
    ensures forall a :: multiset(r)[a] == if Complete(a) then multiset(rows)[a] else 0
  {
    if rows == [] then []
    else
      var r := DropIncomplete(rows[..|rows| - 1]);
      var a := rows[|rows| - 1];
      assert rows == rows[..|rows| - 1] + [a];
      if Complete(a) then r + [a] else r
  }

  /** Dropping keeps the relative order of the rows it keeps. */
  lemma {:induction false} DropIncompleteAppend(xs: seq<ActionRow>, ys: seq<ActionRow>)
    ensures DropIncomplete(xs + ys) == DropIncomplete(xs) + DropIncomplete(ys)
    decreases |ys|
  {
    if ys == [] {
      assert xs + ys == xs;
    } else {
      var ys' := ys[..|ys| - 1];
      assert (xs + ys)[..|xs + ys| - 1] == xs + ys';
      assert ys[..|ys| - 1] == ys';
      DropIncompleteAppend(xs, ys');
    }
  }

  // ---------------------------------------------------------------------------
  // The loader
  // ---------------------------------------------------------------------------

  /** Fill, replace aliases, drop incomplete rows. */
  function LoadWith(rows: seq<ActionRow>, fill: Option<Day>): (r: seq<ActionRow>)
    ensures Loaded(r)
    ensures forall a :: a in r ==> AliasFree(a)
  {
    var prepared := ReplaceAliases(FillEnds(rows, fill));
    ReplaceAliasesIsCanonical(FillEnds(rows, fill));
    var r := DropIncomplete(prepared);
    assert forall a :: a in r ==> a in prepared by {
      forall a | a in r ensures a in prepared {
        assert multiset(r)[a] > 0;
      }
    }
    r
  }

  /** The loader with missing end dates filled by the latest parsed end date. */
  function LoadActions(rows: seq<ActionRow>): (r: seq<ActionRow>)
    ensures Loaded(r)
    ensures forall a :: a in r ==> AliasFree(a)
  {
    LoadWith(rows, MaxParsed(EndCells(rows)))
  }

  /** A row survives loading exactly when its filled, canonicalised version is complete. */
  lemma LoadWithKeeps(rows: seq<ActionRow>, fill: Option<Day>, a: ActionRow)
    ensures a in LoadWith(rows, fill) <==>
      Complete(a) && exists i :: 0 <= i < |rows| && a == Prepare(rows[i], fill)
  {
    var filled := FillEnds(rows, fill);
    ReplaceAliasesIsCanonical(filled);
    var prepared := ReplaceAliases(filled);
    var r := DropIncomplete(prepared);
    assert a in r <==> multiset(r)[a] > 0;
    assert a in prepared <==> exists i :: 0 <= i < |rows| && a == Prepare(rows[i], fill) by {
      if a in prepared {
        var i :| 0 <= i < |prepared| && prepared[i] == a;
        assert a == Prepare(rows[i], fill);
      }
      if exists i :: 0 <= i < |rows| && a == Prepare(rows[i], fill) {
        var i :| 0 <= i < |rows| && a == Prepare(rows[i], fill);
        assert prepared[i] == a;
      }
    }
  }

  /** Every loaded row comes from one input row: its start date is that row's, its end
      date is that row's parsed end date or, when that was missing, the latest parsed end date. */
  lemma LoadedRowOrigin(rows: seq<ActionRow>, a: ActionRow)
    requires a in LoadActions(rows)
    ensures exists i :: (0 <= i < |rows| && a.start == rows[i].start &&
      a.end == (if rows[i].end.Some? then rows[i].end else MaxParsed(EndCells(rows))) &&
      a.location == CanonicalCell(rows[i].location))
  {
    LoadWithKeeps(rows, MaxParsed(EndCells(rows)), a);
  }

  /** A row whose only gap is its end date is kept, with the latest parsed end date,
      provided that some row has a parsed end date. */
  lemma MissingEndGetsLatest(rows: seq<ActionRow>, i: nat)
    requires i < |rows| && rows[i].end.None?
    requires rows[i].start.Some? && rows[i].level.Some? && rows[i].location.Some? && rows[i].action.Some?
    requires exists j :: 0 <= j < |rows| && rows[j].end.Some?
    ensures Prepare(rows[i], MaxParsed(EndCells(rows))) in LoadActions(rows)
    ensures Prepare(rows[i], MaxParsed(EndCells(rows))).end == MaxParsed(EndCells(rows))
    ensures forall j :: 0 <= j < |rows| && rows[j].end.Some? ==>
      rows[j].end.value <= Prepare(rows[i], MaxParsed(EndCells(rows))).end.value
  {
    var fill := MaxParsed(EndCells(rows));
    var j :| 0 <= j < |rows| && rows[j].end.Some?;
    assert EndCells(rows)[j].Some?;
    LoadWithKeeps(rows, fill, Prepare(rows[i], fill));
  }

  // ---------------------------------------------------------------------------
  // The fill value as the source computes it
  // ---------------------------------------------------------------------------

  /** `x > y` on parsed dates; every comparison involving NaT is false. */
  predicate Greater(x: Option<Day>, y: Option<Day>) {
    x.Some? && y.Some? && x.value > y.value
  }

  /** Python's builtin max(): keep the current item unless a later item compares greater. */
  function KeepGreatest(cur: Option<Day>, rest: seq<Option<Day>>): (r: Option<Day>)
    ensures r == cur || r in rest
    decreases |rest|
  {
    if rest == [] then cur
    else KeepGreatest(if Greater(rest[0], cur) then rest[0] else cur, rest[1..])
  }

  /** `max(df["enddate_action"])` with the builtin max of Python: raises on an empty column. */
  function BuiltinMax(ends: seq<Option<Day>>): (r: Result<Option<Day>, LoadError>)
    ensures r.Failure? <==> ends == []
  {
    if ends == [] then Failure(EmptyTable) else Success(KeepGreatest(ends[0], ends[1..]))
  }

  /** The loader as written: the fill value is the builtin max of the end-date column. */
  function LoadActionsAsWritten(rows: seq<ActionRow>): (r: Result<seq<ActionRow>, LoadError>)
    ensures r.Failure? <==> rows == []
    ensures r.Success? ==> Loaded(r.value) && forall a :: a in r.value ==> AliasFree(a)
  {
    match BuiltinMax(EndCells(rows))
    case Failure(e) => Failure(e)
    case Success(fill) => Success(LoadWith(rows, fill))
  }

  /** Once the running maximum is NaT it stays NaT. */
  lemma {:induction false} KeepGreatestStuck(rest: seq<Option<Day>>)
    ensures KeepGreatest(None, rest) == None
    decreases |rest|
  {
    if rest != [] {
      KeepGreatestStuck(rest[1..]);
    }
  }

  /** From a parsed start, builtin max is an upper bound that is one of its inputs. */
  lemma {:induction false} KeepGreatestFrom(v: Day, rest: seq<Option<Day>>)
    ensures KeepGreatest(Some(v), rest).Some?
    ensures v <= KeepGreatest(Some(v), rest).value
    ensures forall i :: 0 <= i < |rest| && rest[i].Some? ==> rest[i].value <= KeepGreatest(Some(v), rest).value
    ensures KeepGreatest(Some(v), rest) == Some(v) || exists i :: 0 <= i < |rest| && rest[i] == KeepGreatest(Some(v), rest)
    decreases |rest|
  {
    if rest != [] {
      var next := if Greater(rest[0], Some(v)) then rest[0] else Some(v);
      KeepGreatestFrom(next.value, rest[1..]);
      var w := KeepGreatest(next, rest[1..]);
      assert w == KeepGreatest(Some(v), rest);
      forall i | 0 <= i < |rest| && rest[i].Some? ensures rest[i].value <= w.value {
        if i > 0 {
          assert rest[1..][i - 1] == rest[i];
        }
      }
      if w != next {
        var i :| 0 <= i < |rest[1..]| && rest[1..][i] == w;
        assert rest[i + 1] == w;
      }
    }
  }

  /** When the first end date parsed, the builtin max is the latest parsed end date. */
  lemma BuiltinMaxAgrees(ends: seq<Option<Day>>)
    requires ends != [] && ends[0].Some?
    ensures BuiltinMax(ends) == Success(MaxParsed(ends))
  {
    var rest := ends[1..];
    KeepGreatestFrom(ends[0].value, rest);
    var w := KeepGreatest(ends[0], rest);
    var m := MaxParsed(ends);
    assert m.Some?;
    var j :| 0 <= j < |ends| && ends[j] == m;
    var k := 0;
    if w != ends[0] {
      var i :| 0 <= i < |rest| && rest[i] == w;
      k := i + 1;
    }
    assert ends[k] == w;
    assert w.value <= m.value;
    if j > 0 {
      assert rest[j - 1] == ends[j];
    }
    assert m.value <= w.value;
  }

  /** When the first end date is NaT, the builtin max is NaT. */
  lemma BuiltinMaxStuckOnNaT(ends: seq<Option<Day>>)
    requires ends != [] && ends[0].None?
    ensures BuiltinMax(ends) == Success(None)
  {
    KeepGreatestStuck(ends[1..]);
  }

  /** The loader as written and the corrected loader agree whenever the first end date parsed. */
  lemma AsWrittenAgrees(rows: seq<ActionRow>)
    requires rows != [] && rows[0].end.Some?
    ensures LoadActionsAsWritten(rows) == Success(LoadActions(rows))
  {
    BuiltinMaxAgrees(EndCells(rows));
  }

  /** When the first end date is NaT, the loader as written keeps only rows whose own
      end date parsed: no missing end date is filled. */
  lemma AsWrittenFillsNothing(rows: seq<ActionRow>)
    requires rows != [] && rows[0].end.None?
    ensures LoadActionsAsWritten(rows).Success?
    ensures forall a :: a in LoadActionsAsWritten(rows).value ==>
      exists i :: 0 <= i < |rows| && rows[i].end.Some? && a == Prepare(rows[i], None)
  {
    BuiltinMaxStuckOnNaT(EndCells(rows));
    forall a | a in LoadActionsAsWritten(rows).value
      ensures exists i :: 0 <= i < |rows| && rows[i].end.Some? && a == Prepare(rows[i], None)
    {
      LoadWithKeeps(rows, None, a);
    }
  }

  /** Two rows: the first lacks an end date, the second ends on day 30. */
  function FillableExample(): (rows: seq<ActionRow>)
    ensures |rows| == 2 && rows[0].end.None? && rows[1].end == Some(30)
  {
    [ActionRow(Some(0), None, None, Some("Land"), Some("Bayern"), Some("Schulen"), None),
     ActionRow(Some(1), Some(30), None, Some("Land"), Some("Bayern"), Some("Verbot"), None)]
  }

  /** On that example the corrected loader keeps the first row, with end day 30. */
  lemma CorrectedFillsExample()
    ensures Prepare(FillableExample()[0], Some(30)) in LoadActions(FillableExample())
    ensures Prepare(FillableExample()[0], Some(30)).end == Some(30)
  {
    var rows := FillableExample();
    var ends := EndCells(rows);
    var m := MaxParsed(ends);
    assert m.Some? by { assert ends[1].Some?; }
    assert m == Some(30) by {
      var i :| 0 <= i < |ends| && ends[i] == m;
      assert i == 1;
    }
    assert rows[0].start.Some? && rows[0].level.Some? && rows[0].location.Some? && rows[0].action.Some?;
    MissingEndGetsLatest(rows, 0);
  }

  /** On that example the loader as written keeps no row built from the first one. */
  lemma AsWrittenDropsFillableRow()
    ensures LoadActionsAsWritten(FillableExample()).Success?
    ensures forall a :: a in LoadActionsAsWritten(FillableExample()).value ==> a.start != Some(0)
  {
    var rows := FillableExample();
    AsWrittenFillsNothing(rows);
    forall a | a in LoadActionsAsWritten(rows).value ensures a.start != Some(0) {
      var i :| 0 <= i < |rows| && rows[i].end.Some? && a == Prepare(rows[i], None);
      assert i == 1;
    }
  }
}
