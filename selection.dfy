/** What the page reports for the chosen destination
    (code/FareCalcMap.py lines 167-193): the same-station warning, the
    sidebar summary with one zone/price line per matching joined row, and
    the rows `stations_to_display` that get a map marker. */
module Selection {
  import opened Tables
  import Choices
  import Joins
  import Rows

  /** `stations_to_display`, or `Unassigned` when neither branch of lines
      188-193 assigns it (the marker loop then stops the script with a
      `NameError`). */
  datatype Shown = Shown(rows: seq<Resolved>) | Unassigned

  /** A line written to the sidebar. */
  datatype SidebarLine =
    | SameStationWarning
    | SelectedHeading
    | SelectedJourney(payment: string, ticket: string, origin: string, destination: string)
    | ZoneAndCost(zone: string, cost: int)

  /** `rows.loc[rows["Destination"] == destination]`. */
  function ToDestination(rows: seq<Resolved>, destination: string): (r: seq<Resolved>)
    ensures forall x :: multiset(r)[x] == if x.od.destination == destination then multiset(rows)[x] else 0
    ensures Rows.SubsequenceOf(r, rows)
  {
    Rows.Filter(rows, (x: Resolved) => x.od.destination == destination)
  }

  /** Lines 188-193: `"Any"` shows every joined row, another destination
      than the origin only the rows that reach it, and the origin itself
      leaves the marker set unassigned. */
  function Display(rows: seq<Resolved>, origin: string, destination: string): (r: Shown)
    ensures r.Unassigned? <==> destination != Choices.AnyDestination && destination == origin
    ensures destination == Choices.AnyDestination ==> r == Shown(rows)
    ensures r.Shown? && destination != Choices.AnyDestination ==>
      (forall x :: multiset(r.rows)[x] == if x.od.destination == destination then multiset(rows)[x] else 0) &&
      Rows.SubsequenceOf(r.rows, rows)
  {
    if destination == Choices.AnyDestination then Shown(rows)
    else if destination != origin then Shown(ToDestination(rows, destination))
    else Unassigned
  }

  /** The sidebar line for one joined row (lines 182-186). */
  function ZoneLine(row: Resolved): SidebarLine
  {
    ZoneAndCost(row.od.value, row.fare.fare)
  }

  /** Whether the loop of lines 177-186 writes a line for `row`. */
  predicate Reported(row: Resolved, origin: string, destination: string)
  {
    row.od.origin == origin && row.od.destination == destination
  }

  /** The lines the loop of lines 177-186 writes: one per reported row, in
      row order. */
  function ZoneLines(rows: seq<Resolved>, origin: string, destination: string): (r: seq<SidebarLine>)
    ensures |r| <= |rows|
    ensures r == [] <==> forall row :: row in rows ==> !Reported(row, origin, destination)
    ensures forall line :: line in r ==> exists row :: row in rows && Reported(row, origin, destination) && line == ZoneLine(row)
  {
    if rows == [] then []
    else
      var init, last := rows[..|rows| - 1], rows[|rows| - 1];
      assert rows == init + [last];
      ZoneLines(init, origin, destination) + (if Reported(last, origin, destination) then [ZoneLine(last)] else [])
  }

  /** The sidebar text of lines 167-186, as a list of lines. */
  method Sidebar(rows: seq<Resolved>, payment: string, ticket: string, origin: string, destination: string)
    returns (lines: seq<SidebarLine>)
    ensures destination == origin ==> lines == [SameStationWarning]
    ensures destination == Choices.AnyDestination && destination != origin ==> lines == []
    ensures destination != origin && destination != Choices.AnyDestination ==>
      lines == [SelectedHeading, SelectedJourney(DropLast(payment), ticket, origin, destination)]
               + ZoneLines(rows, origin, destination)
    ensures destination != origin && destination != Choices.AnyDestination ==>
      |lines| >= 2 && lines[2..] == ZoneLines(rows, origin, destination)
  {
    lines := [];
    if destination == origin {
      lines := lines + [SameStationWarning];
    }
    if destination != origin && destination != Choices.AnyDestination {
      var header := [SelectedHeading, SelectedJourney(DropLast(payment), ticket, origin, destination)];
      lines := header;
      var i := 0;
      while i < |rows|
        invariant 0 <= i <= |rows|
        invariant lines == header + ZoneLines(rows[..i], origin, destination)
      {
        assert rows[..i + 1][..i] == rows[..i];
        if rows[i].od.origin == origin && rows[i].od.destination == destination {
          lines := lines + [ZoneLine(rows[i])];
        }
        i := i + 1;
      }
      assert rows[..i] == rows;
      assert lines[2..] == ZoneLines(rows, origin, destination);
    }
  }

  /** A specific destination other than the origin shows exactly the joined
      rows that reach it, each as often as the joins produced it. */
  lemma DisplayOneDestination(od: seq<ODRow>, stations: seq<Station>, fares: seq<FareRow>,
                              origin: string, destination: string, o: ODRow, s: Station, f: FareRow)
    requires destination != Choices.AnyDestination && destination != origin
    ensures Display(Joins.ResolveFares(od, stations, fares, origin), origin, destination).Shown?
    ensures multiset(Display(Joins.ResolveFares(od, stations, fares, origin), origin, destination).rows)[Resolved(o, s, f)]
      == if Joins.Matches(origin, o, s, f) && o.destination == destination then Joins.Copies(od, stations, fares, o, s, f) else 0
  {
    var rows := Joins.ResolveFares(od, stations, fares, origin);
    Joins.ResolveFaresCount(od, stations, fares, origin, o, s, f);
    DisplayCount(rows, origin, destination, Resolved(o, s, f), multiset(rows)[Resolved(o, s, f)]);
  }

  /** Helper: the count of one row among the rows shown for a specific
      destination. */
  lemma DisplayCount(rows: seq<Resolved>, origin: string, destination: string, x: Resolved, count: int)
    requires destination != Choices.AnyDestination && destination != origin
    requires multiset(rows)[x] == count
    ensures Display(rows, origin, destination).Shown?
    ensures multiset(Display(rows, origin, destination).rows)[x]
      == if x.od.destination == destination then count else 0
  {
  }

  function ZoneLinesOf(rows: seq<Resolved>): (r: seq<SidebarLine>)
    ensures |r| == |rows| && forall i :: 0 <= i < |rows| ==> r[i] == ZoneLine(rows[i])
  {
    seq(|rows|, i requires 0 <= i < |rows| => ZoneLine(rows[i]))
  }

  lemma ZoneLinesOfAppend(t: seq<Resolved>, row: Resolved)
    ensures ZoneLinesOf(t + [row]) == ZoneLinesOf(t) + [ZoneLine(row)]
  {
  }

  /** The rows the loop of lines 177-186 writes a line for, in row order. */
  function ReportedRows(rows: seq<Resolved>, origin: string, destination: string): (r: seq<Resolved>)
    ensures forall x :: multiset(r)[x] == if Reported(x, origin, destination) then multiset(rows)[x] else 0
    ensures Rows.SubsequenceOf(r, rows)
  {
    Rows.Filter(rows, (x: Resolved) => Reported(x, origin, destination))
  }

  /** The sidebar loop writes one zone/price line per reported row, each
      copy included, in row order, and nothing else. */
  lemma {:induction false} ZoneLinesAreReportedRows(rows: seq<Resolved>, origin: string, destination: string)
    ensures ZoneLines(rows, origin, destination) == ZoneLinesOf(ReportedRows(rows, origin, destination))
  {
    if rows != [] {
      var init, last := rows[..|rows| - 1], rows[|rows| - 1];
      assert rows == init + [last];
      ZoneLinesAreReportedRows(init, origin, destination);
      var t := ReportedRows(init, origin, destination);
      if Reported(last, origin, destination) {
        assert ReportedRows(rows, origin, destination) == t + [last];
        ZoneLinesOfAppend(t, last);
      } else {
        assert ReportedRows(rows, origin, destination) == t;
      }
    }
  }

  /** The sidebar's zone/price lines are exactly the marked rows, one line
      per row, in the same order. */
  lemma SidebarListsDisplayedRows(od: seq<ODRow>, stations: seq<Station>, fares: seq<FareRow>,
                                  origin: string, destination: string)
    requires destination != Choices.AnyDestination && destination != origin
    ensures var rows := Joins.ResolveFares(od, stations, fares, origin);
      ZoneLines(rows, origin, destination) == ZoneLinesOf(Display(rows, origin, destination).rows)
  {
    var rows := Joins.ResolveFares(od, stations, fares, origin);
    ZoneLinesAreReportedRows(rows, origin, destination);
    Rows.FilterAgrees(rows, (x: Resolved) => Reported(x, origin, destination),
                            (x: Resolved) => x.od.destination == destination);
  }
}
