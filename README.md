# COVID-19 dashboard: action timeline and county centres in Dafny

This project models two pieces of the COVID-19 dashboard.

The first is the timeline pipeline of the dashboard's bar-chart view:
- loading the table of policy measures ("actions"): missing end dates are filled, three misspelled region names are rewritten, and rows lacking a mandatory field are dropped;
- the global daily timeline;
- restricting cases and actions to one region, where cases are summed per day;
- the left join of the region's daily sums onto the timeline;
- the geometry of the action markers;
- the wrapping of the hover text;
- the guard that skips the markers of a region without actions;
- the list of selectable regions.

The second is the bounding-box-centre script of the county map. For each county it takes the minimum and maximum x and y over every point of every ring, then stores the midpoint under the county's name.

Dates are whole day numbers (`Day = int`). Case counts are integers. Coordinates and the marker scale are `real`. A missing cell (NaN/NaT) is `None`. The pandas frames the code changes in place are small classes:
- `Merge.TimelineFrame` is the timeline, whose index `build_merged_dataset` overwrites;
- `MarkerLayout.ActionFrame` is the region's action rows, relabelled 1..n by `build_am_data`.

The loops of `wrap_hover_text` and of the county script are methods with loop invariants. Each is proved against a specification function, and the lemmas about those functions carry the properties.

Modules, one per file:
- `Wrappers`: `Option` and `Result`.
- `Records`: the case record and the action row.
- `ActionLoading`: `read_action_data`.
- `Timeline`: `create_timeline`.
- `RegionFilter`: `filter_data_set_country_level`.
- `Merge`: `build_merged_dataset`.
- `MarkerLayout`: `build_am_data`.
- `HoverText`: `wrap_hover_text`.
- `RegionList`: `relevant_countries`.
- `Figure`: `main_figure`.
- `CountyCenters`: `counties_bbcenters.py`.

Where the code's behaviour may be unexpected, the model follows the code:
- The timeline is computed once, over all cases and all loaded actions, not per region. It fails when either table is empty instead of falling back to the other: the builtin `min` raises.
- Days without records get no value (NaN) in the merged frame, not zero.
- An action's height is `max_cases * row_num`, where `row_num` is its 1-based position in the region's table BEFORE sorting, not its rank after sorting (`MarkerLayout.LevelIsNotRankExample`).
- The tail segment spans [start + 15, end + 15], not [end, end + 15].
- The guards `if action["enddate_action"]` (frontend/application.py:175 and :184) always hold for loaded rows, because every date value is truthy. All five segments are drawn for every action.

## Model

| member | source | states |
|---|---|---|
| ActionLoading.Replace | frontend/application.py:31-33 | `DataFrame.replace(from, to)` rewrites exactly the cells equal to `from`, row by row, keeping the length |
| ActionLoading.ReplaceAliases | frontend/application.py:31-33 | the three `replace` calls keep the number of rows and leave every date column (start, end, timestamp) as it was |
| ActionLoading.ReplaceCellsIsCanonical | frontend/application.py:31-33 | the three replacements in sequence send each alias to its canonical name and leave no alias behind |
| ActionLoading.ReplaceAliasesIsCanonical | frontend/application.py:31-33 | the replaced table is the original with every text cell looked up in the alias table, and no cell is an alias |
| ActionLoading.CanonicalIdempotent | frontend/application.py:31-33 | a canonical name is never an alias, so renaming twice changes nothing |
| ActionLoading.MaxParsed | frontend/application.py:29 | the latest parsed end date: None exactly when no end date parsed; otherwise one of the column's values and no smaller than any parsed one |
| ActionLoading.FillEnds | frontend/application.py:29 | `fillna`: each row keeps its end date if it has one, else takes the fill value |
| ActionLoading.DropIncomplete | frontend/application.py:37 | `dropna(how="any")` on the five mandatory columns: every kept row is complete, and a row occurs as often as in the input if complete, else never |
| ActionLoading.DropIncompleteAppend | frontend/application.py:37 | dropping distributes over concatenation, so the kept rows stay in table order |
| ActionLoading.LoadWith | frontend/application.py:27-37 | fill, rename, drop: every row of the result is complete and alias-free |
| ActionLoading.LoadActions | frontend/application.py:22-38 | the loader with the latest parsed end date as fill value: loaded rows are complete and alias-free |
| ActionLoading.LoadWithKeeps | frontend/application.py:27-37 | a row is in the loaded table iff it is complete and is the filled, renamed version of some input row |
| ActionLoading.LoadedRowOrigin | frontend/application.py:27-37 | each loaded row keeps an input row's start date and canonical location, and its end date is that row's or else the latest parsed end date |
| ActionLoading.MissingEndGetsLatest | frontend/application.py:29-37 | a row lacking only its end date is kept, with an end date no earlier than any parsed end date, when some end date parsed |
| ActionLoading.BuiltinMax | frontend/application.py:29 | builtin `max` over the end-date column fails exactly on an empty column |
| ActionLoading.LoadActionsAsWritten | frontend/application.py:22-38 | the loader as written fails exactly on an empty table; otherwise its rows are complete and alias-free |
| ActionLoading.KeepGreatest | frontend/application.py:29 | builtin `max`'s scan returns its starting item or one of the later items, never anything else |
| ActionLoading.KeepGreatestStuck | frontend/application.py:29 | once builtin `max` holds NaT it keeps NaT, since every comparison with NaT is false |
| ActionLoading.KeepGreatestFrom | frontend/application.py:29 | from a parsed date, builtin `max` returns a parsed date that bounds the rest and is one of them or the start |
| ActionLoading.BuiltinMaxAgrees | frontend/application.py:29 | when the first end date parsed, builtin `max` equals the latest parsed end date |
| ActionLoading.BuiltinMaxStuckOnNaT | frontend/application.py:29 | when the first end date is NaT, builtin `max` is NaT |
| ActionLoading.AsWrittenAgrees | frontend/application.py:22-38 | the loader as written equals the corrected loader when the first end date parsed |
| ActionLoading.AsWrittenFillsNothing | frontend/application.py:29-37 | when the first end date is NaT, the loader as written keeps only rows whose own end date parsed |
| ActionLoading.FillableExample | frontend/application.py:29 | a two-row table whose first row lacks an end date and whose second ends on day 30 |
| ActionLoading.CorrectedFillsExample | frontend/application.py:29-37 | on that table the corrected loader keeps the first row, ending on day 30 |
| ActionLoading.AsWrittenDropsFillableRow | frontend/application.py:29-37 | on that table the loader as written drops the first row |
| Timeline.MinOf | frontend/application.py:44 | builtin `min` of a non-empty column: an element that is below every element |
| Timeline.MaxOf | frontend/application.py:45 | builtin `max` of a non-empty column: an element that is above every element |
| Timeline.Earliest | frontend/application.py:44 | the earliest day is no later than any case date or any action start |
| Timeline.Latest | frontend/application.py:45 | the latest day is no earlier than any case date or any action end |
| Timeline.DateRange | frontend/application.py:48 | `pd.date_range(lo, hi)`: hi - lo + 1 consecutive days from lo to hi, containing exactly the days in [lo, hi] |
| Timeline.CreateTimeline | frontend/application.py:41-50 | fails exactly when the case table or the action table is empty (cases checked first) |
| Timeline.TimelineCovers | frontend/application.py:44-48 | the timeline holds every case date and both dates of every action that does not end before it starts |
| Timeline.TimelineTight | frontend/application.py:44-45 | the first day is a case date or an action start; the last is a case date or an action end |
| Timeline.TimelineLength | frontend/application.py:48 | the length is latest - earliest + 1 and day i is earliest + i |
| RegionFilter.Lookup | frontend/application.py:68 | looking a day up in the grouped frame finds a row of the frame carrying that day, and finds nothing exactly when no row carries it |
| RegionFilter.SumsAdditive | frontend/application.py:59 | the per-day sums are additive over any split of the records |
| RegionFilter.Add | frontend/application.py:59 | adding a record to the grouped frame keeps it ascending and changes only its own day, by adding the record's counts |
| RegionFilter.RegionSeries | frontend/application.py:58-59 | `groupby('timestamp').sum()` of the region's records: strictly ascending days; at day t the region's infected and death sums if it has a record that day, else no row |
| RegionFilter.GroupStep | frontend/application.py:59 | grouping one more record gives the grouped frame of all the records |
| RegionFilter.GroupStepAt | frontend/application.py:59 | the same, at one timestamp |
| RegionFilter.StampsStep | frontend/application.py:58 | one more record adds its day to the region's days iff it is the region's |
| RegionFilter.SumsStep | frontend/application.py:59 | one more record adds its counts to the sums of its own region and day only |
| RegionFilter.SumsOutside | frontend/application.py:59 | on a day without a record of the region both sums are zero |
| RegionFilter.LookupFinds | frontend/application.py:59 | in an ascending frame each row is found under its own timestamp |
| RegionFilter.LookupSound | frontend/application.py:59 | a found row is in the frame and carries the looked-up timestamp |
| RegionFilter.SeriesRows | frontend/application.py:58-59 | every grouped row is a day of the region carrying that day's sums, and every record's day has a row |
| RegionFilter.SeriesDeterminedByLookup | frontend/application.py:59 | two ascending frames that agree at every timestamp are equal, so the grouped frame is unique |
| RegionFilter.OtherRegionSums | frontend/application.py:58-59 | a record of another region leaves the region's infected and death sums at every day unchanged |
| RegionFilter.OtherRegionIgnored | frontend/application.py:58 | a record of another region does not change the grouped frame |
| RegionFilter.SameDayRecordsAdd | frontend/application.py:59 | two same-day records of a region become one row with their summed counts |
| RegionFilter.RegionActions | frontend/application.py:61 | `df_actions[location == country]`: a row occurs as often as in the table if its location is the region, else never; loaded rows stay loaded |
| RegionFilter.RegionActionsAppend | frontend/application.py:61 | the filter distributes over concatenation, so kept rows stay in table order |
| Merge.TimelineFrame.constructor | frontend/application.py:48-49 | a frame built from the date range has the days as `Time` and the default index 0, 1, 2, ... |
| Merge.LeftJoin | frontend/application.py:68 | one merged row per timeline row |
| Merge.BuildMergedDataset | frontend/application.py:65-69 | sets the frame's index to its `Time` column in place and returns the left join on it |
| Merge.MergedRows | frontend/application.py:65-69 | row i carries day i of the timeline, the region's sums if it has records that day, and no value (not zero) otherwise |
| Merge.DefaultIndexMismatch | frontend/application.py:67-68 | without the index assignment the join would look up positions instead of days and miss the records |
| MarkerLayout.Zip | frontend/application.py:127 | `iterrows`: one (label, row) pair per row, in order: entry i pairs index label i with row i |
| MarkerLayout.Labels | frontend/application.py:111 | `list(range(1, n + 1))` has n labels |
| MarkerLayout.Number | frontend/application.py:111 | after the index is overwritten, the row at position i carries label i + 1 |
| MarkerLayout.MaxInfected | frontend/application.py:113 | builtin `max` of the grouped infections: one of them, above all of them |
| MarkerLayout.Scale | frontend/application.py:112-115 | `max_cases`: n when the region has no case rows; otherwise n times it is the peak of the infections |
| MarkerLayout.Insert | frontend/application.py:118 | inserting into a start-sorted list keeps it sorted and adds exactly that row |
| MarkerLayout.InsertStep | frontend/application.py:118 | a row starting no later than the head of a sorted list can be put in front of it |
| MarkerLayout.SortByStart | frontend/application.py:118 | `sort_values("startdate_action")`: ascending start dates and a permutation of the rows |
| MarkerLayout.Shape | frontend/application.py:121-185 | the start and effect lines drop vertically from the action's level to 0; pending, active and tail run horizontally at the level; each begins at the start date or 15 days later; the tail is as long as the action |
| MarkerLayout.Level | frontend/application.py:128-185 | `max_cases * row_num`: positive for a positive scale and label |
| MarkerLayout.LevelsOrdered | frontend/application.py:128-185 | with a positive scale, a larger label gives a strictly greater height, so no two actions share a height |
| MarkerLayout.Traces | frontend/application.py:121-185 | one segment per row, in row order, of the given kind at height scale * label |
| MarkerLayout.Layout | frontend/application.py:121-185 | the five trace lists concatenated: five segments per action |
| MarkerLayout.LayoutAt | frontend/application.py:121-185 | the i-th sorted row's segments sit at i, n + i, 2n + i, 3n + i, 4n + i |
| MarkerLayout.ActionFrame.constructor | frontend/application.py:61 | the region's action rows with the index labels they carry |
| MarkerLayout.BuildAmData | frontend/application.py:109-187 | relabels the frame 1..n in place and returns the five trace lists of the start-sorted rows |
| MarkerLayout.LevelFollowsInputPosition | frontend/application.py:111-185 | the action at input position j is drawn at height scale * (j + 1) after the sort. Its start and effect lines run from that height to 0 at start and start + 15. Its pending, active and tail segments span [start, start+15], [start+15, end] and [start+15, end+15] |
| MarkerLayout.SegmentsOfLabel | frontend/application.py:121-185 | wherever a row labelled k sits after sorting, its five segments are drawn at height scale * k |
| MarkerLayout.LabeledSegments | frontend/application.py:121-185 | a sorted row labelled k is drawn at height scale * k with its five segments |
| MarkerLayout.FindSorted | frontend/application.py:118 | the row labelled j + 1 is somewhere in the sorted frame |
| MarkerLayout.TracesInStartOrder | frontend/application.py:118-185 | within each of the five trace lists (start lines, effect lines, pending, active, tail) the segments' left ends come in ascending order of start date |
| MarkerLayout.LevelIsNotRankExample | frontend/application.py:111-144 | actions starting on days 10 and 5, in that order: the day-5 action is drawn first but at height 2 * scale, the day-10 one second at 1 * scale |
| MarkerLayout.SortTwo | frontend/application.py:118 | sorting those two actions swaps them |
| HoverText.FindSpace | frontend/application.py:99 | `str.find(" ", start)`: the first space at or after start, or -1 exactly when there is none |
| HoverText.Fragments | frontend/application.py:98-104 | the pieces the loop appends: none exactly for the empty text, and never an empty piece |
| HoverText.JoinBr | frontend/application.py:105 | `"<br>".join`: the output starts with the first piece, and a break follows it when there are several |
| HoverText.WrapHoverText | frontend/application.py:94-105 | a non-string comes back unchanged; a string comes back as its fragments joined with "<br>" |
| HoverText.FragmentsRejoin | frontend/application.py:94-105 | the fragments concatenated without separators give the text back |
| HoverText.FragmentsShape | frontend/application.py:98-103 | every fragment but the last has at least 81 characters and ends at the first space from column 80; the last ends the same way or has no space from column 80 |
| HoverText.ShortTextUnchanged | frontend/application.py:99-101 | a text with no space from column 80 on is shown as it is |
| HoverText.BreaksBetweenPieces | frontend/application.py:105 | the output is the text plus four characters per break between fragments |
| HoverText.JoinBrLength | frontend/application.py:105 | `"<br>".join` adds four characters per gap |
| RegionList.LessIrreflexive | frontend/application.py:235 | no name sorts before itself |
| RegionList.LessTransitive | frontend/application.py:235 | the name order is transitive |
| RegionList.LessTotal | frontend/application.py:235 | any two different names are ordered one way or the other |
| RegionList.InsertUnique | frontend/application.py:235 | inserting into a strictly sorted list keeps it strictly sorted and adds exactly that name |
| RegionList.Unique | frontend/application.py:235 | `np.unique`: strictly ascending, with exactly the input's names |
| RegionList.RelevantRegions | frontend/application.py:233-235 | `relevant_countries`: strictly sorted, holding a name iff it is among the case countries or the action locations |
| RegionList.RelevantRegionsContents | frontend/application.py:233-235 | the region list is strictly sorted and holds a name iff it is a case country or an action location |
| RegionList.SortedListDeterminedBySet | frontend/application.py:235 | a strictly sorted list is determined by its names, so the region list is unique |
| Figure.RegionLabels | frontend/application.py:61 | the filter keeps at most as many index labels as the table has, each one of the table's labels |
| Figure.RegionLabelsLength | frontend/application.py:61 | the filtered action frame keeps one index label per kept row |
| Figure.MainFigure | frontend/application.py:216-225 | merges the region's sums onto the global timeline (overwriting its index) and draws no markers when the region has no actions, else the layout of its actions |
| Figure.NoRecordDropped | frontend/application.py:41-68 | on the timeline built from all data, each case record of the region has a merged row for its day carrying that day's sums |
| Figure.OneRowPerDay | frontend/application.py:41-68 | the merged frame has one row per timeline day, in order, from the earliest to the latest date |
| CountyCenters.FlattenHas | frontend/county_centers/counties_bbcenters.py:22-23 | the nested loops visit every point of every ring |
| CountyCenters.FlattenFrom | frontend/county_centers/counties_bbcenters.py:22-23 | every visited point comes from one of the rings |
| CountyCenters.FlattenEmpty | frontend/county_centers/counties_bbcenters.py:22-23 | rings without points contribute no point |
| CountyCenters.ExtremesStep | frontend/county_centers/counties_bbcenters.py:24-31 | one more point updates each running extreme as the four `if`s do |
| CountyCenters.LowIsMinimum | frontend/county_centers/counties_bbcenters.py:15-31 | x0 (and y0) is min(1e8, all coordinates): below the sentinel and every coordinate, and equal to one of them |
| CountyCenters.HighIsMaximum | frontend/county_centers/counties_bbcenters.py:15-31 | x1 (and y1) is max(-1e8, all coordinates) |
| CountyCenters.BoundingBox | frontend/county_centers/counties_bbcenters.py:15-31 | the nested loops leave x0, x1, y0, y1 equal to the running extremes over all points of all rings |
| CountyCenters.ScanRing | frontend/county_centers/counties_bbcenters.py:23-31 | the inner loop over one ring continues the running extremes over the points seen so far |
| CountyCenters.ComputeCenters | frontend/county_centers/counties_bbcenters.py:9-33 | the outer loop builds the map of bounding-box centres, later features overwriting earlier ones |
| CountyCenters.BoxContainsRings | frontend/county_centers/counties_bbcenters.py:15-31 | x0 <= p.x <= x1 and y0 <= p.y <= y1 for every point of every ring |
| CountyCenters.BoxIgnoresOrder | frontend/county_centers/counties_bbcenters.py:15-31 | two visited-point sequences with the same points give the same box |
| CountyCenters.RingOrderIrrelevant | frontend/county_centers/counties_bbcenters.py:15-33 | two ring lists holding the same points (in any order of rings or of points, with repeats) give the same stored centre |
| CountyCenters.LowBelowSame | frontend/county_centers/counties_bbcenters.py:15-31 | more points never raise the minimum |
| CountyCenters.HighAboveSame | frontend/county_centers/counties_bbcenters.py:15-31 | more points never lower the maximum |
| CountyCenters.CenterInsideBox | frontend/county_centers/counties_bbcenters.py:33 | with at least one point the stored centre lies inside the box |
| CountyCenters.EmptyFeatureAtOrigin | frontend/county_centers/counties_bbcenters.py:15-18 | a county without points gets the centre (0, 0): the sentinels cancel |
| CountyCenters.CentersKeys | frontend/county_centers/counties_bbcenters.py:11-33 | the keys are exactly the county names of the features |
| CountyCenters.LastWriterWins | frontend/county_centers/counties_bbcenters.py:33 | a county's entry is the centre of the last feature with that name |
| CountyCenters.OtherEntriesKept | frontend/county_centers/counties_bbcenters.py:33 | storing one feature leaves every other name's entry as it was |

## Left out

- Reading the CSV and JSON files, and writing the centres file, is I/O. The model starts from the parsed rows and features and returns the map.
- Date parsing with `errors="coerce"`: a date arrives already parsed as a day number, or as `None` where it did not parse. Time of day and time zones (`tz_localize`) are not modelled.
- The `timestamp` column of the action table is carried but never read by the core, as in the source.
- Columns other than `infected` and `deaths`, which `groupby().sum()` also sums, are not modelled.
- `build_bar_chart_data`, `merge_figures`, the Dash layout and callbacks, `filter_plot`, `normalize_data` and all Plotly styling are rendering. The marker texts and hover templates, including where `wrap_hover_text` is called, are not part of `Segment`. `HoverText.WrapHoverText` models the wrapping itself.
- frontend/county_centers/filter_regionen.py and backend/api.py are not part of this model.
- Floating point: counts divided by the number of actions, and coordinates, are exact reals. Rounding is not modelled.
- MarkerLayout.SortByStart: `sort_values` uses quicksort, which is not stable. The model sorts with a stable insertion sort, and its contract promises only ascending start dates and a permutation. With two actions on the same start day, the source may emit them in the other order.
- Figure.MainFigure: the global tables and the global timeline are parameters. The index labels the loaded action rows carry are a parameter too; `build_am_data` overwrites them before use.

## Findings

| source | as written | input that shows it | evidently intended | confidence | as-written member | corrected member |
|---|---|---|---|---|---|---|
| frontend/application.py:29 | the fill value is Python's builtin `max` over the end-date column. It returns NaT when the first end date is NaT, because every comparison with NaT is false. Nothing is then filled, and every action without an end date is dropped at line 37 | `ActionLoading.FillableExample`: row 0 has no end date, row 1 ends on day 30. Row 0 is dropped instead of ending on day 30 | fill with the latest parsed end date (`Series.max()`, which skips NaT) | not executed | ActionLoading.LoadActionsAsWritten (ActionLoading.AsWrittenDropsFillableRow) | ActionLoading.LoadActions (ActionLoading.CorrectedFillsExample, ActionLoading.MissingEndGetsLatest) |
