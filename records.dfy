/** The two tables the dashboard reads: case records and action (policy measure) rows. */
module Records {
  import opened Wrappers

  /** A calendar day, counted in days from a fixed epoch. */
  type Day = int

  /** One row of the case table, after its `timestamp` column has been parsed. */
  datatype CaseRecord = CaseRecord(country: string, stamp: Day, infected: int, deaths: int)

  /** One row of the action table. Every cell may be missing (NaN or NaT). */
  datatype ActionRow = ActionRow(
    start: Option<Day>,        // startdate_action
    end: Option<Day>,          // enddate_action
    stamp: Option<Day>,        // timestamp
    level: Option<string>,     // geographic_level
    location: Option<string>,  // location
    action: Option<string>,    // action
    details: Option<string>    // details_action
  )

  /** A row with every field an action marker needs. */
  predicate Complete(a: ActionRow) {
    a.start.Some? && a.end.Some? && a.level.Some? && a.location.Some? && a.action.Some?
  }

  /** What loading guarantees of every row it keeps. */
  predicate Loaded(rows: seq<ActionRow>) {
    forall i :: 0 <= i < |rows| ==> Complete(rows[i])
  }

  /** The day numbers of all case records, in table order. */
  function CaseDays(cases: seq<CaseRecord>): (r: seq<Day>)
    ensures |r| == |cases|
    ensures forall i :: 0 <= i < |cases| ==> r[i] == cases[i].stamp
  {
    seq(|cases|, i requires 0 <= i < |cases| => cases[i].stamp)
  }

  /** The start days of loaded action rows, in table order. */
  function Starts(rows: seq<ActionRow>): (r: seq<Day>)
    requires Loaded(rows)
    ensures |r| == |rows|
    ensures forall i :: 0 <= i < |rows| ==> Some(r[i]) == rows[i].start
  {
    seq(|rows|, i requires 0 <= i < |rows| && rows[i].start.Some? => rows[i].start.value)
  }

  /** The end days of loaded action rows, in table order. */
  function Ends(rows: seq<ActionRow>): (r: seq<Day>)
    requires Loaded(rows)
    ensures |r| == |rows|
    ensures forall i :: 0 <= i < |rows| ==> Some(r[i]) == rows[i].end
  {
    seq(|rows|, i requires 0 <= i < |rows| && rows[i].end.Some? => rows[i].end.value)
  }
}
