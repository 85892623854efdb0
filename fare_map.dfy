/** One run of the fare map script, in its own order: narrow and sort the
    fare table, list the choices, join, write the sidebar, pick the rows to
    mark, colour them, and price the legend. Each stage that can raise is
    shown where it stops the run; everything written before it stays on the
    page. */
module FareMap {
  import opened Tables
  import Choices
  import FareTable
  import Joins
  import Selection
  import Legend

  /** Why a run ends before the page is drawn. */
  datatype Stop =
    | MarkersUnassigned                 // `NameError` on `stations_to_display` (line 196)
    | ZoneWithoutColour(zone: string)   // `KeyError` on `colour_dict2` (line 211)
    | ZoneWithoutFare(zone: string)     // `IndexError` on `.iloc[0]` (line 243)

  datatype Outcome = Drawn(markers: seq<Legend.Rgb>, legend: seq<Legend.LegendCell>) | Stopped(why: Stop)

  /** What one run produces: the choice lists, the sidebar, the joined rows
      and how the run ends. */
  datatype Page = Page(
    payments: seq<string>,
    tickets: seq<string>,
    origins: seq<string>,
    destinations: seq<string>,
    sidebar: seq<Selection.SidebarLine>,
    joined: seq<Resolved>,
    outcome: Outcome)

  /** The marker loop of lines 196-214 stops at row `zone`: it is the zone
      of a shown row with no colour, and every row before it has one. */
  predicate FirstUncoloured(rows: seq<Resolved>, colours: seq<(string, Legend.Rgb)>, zone: string)
  {
    exists i ::
      0 <= i < |rows| && rows[i].od.value == zone && zone !in Legend.Keys(colours) &&
      forall j :: 0 <= j < i ==> rows[j].od.value in Legend.Keys(colours)
  }

  /** The legend loop of lines 240-247 stops at `zone`: it is a colour zone
      without a fare row, and every zone before it has one. */
  predicate FirstUnpriced(zones: seq<string>, narrowed: seq<FareRow>, zone: string)
  {
    exists i ::
      0 <= i < |zones| && zones[i] == zone && Legend.LegendPrice(narrowed, zone).None? &&
      forall j :: 0 <= j < i ==> Legend.LegendPrice(narrowed, zones[j]).Some?
  }

  /** How lines 196-247 end once `rows` are the rows to mark: the first
      row whose zone has no colour stops the run; else the first colour zone
      without a fare stops it; else the page has one marker per row,
      coloured by its zone, and one legend cell per colour zone, priced by
      the first fare row of that zone in the narrowed table. */
  predicate MarksAndPrices(outcome: Outcome, narrowed: seq<FareRow>, rows: seq<Resolved>,
                           colours: seq<(string, Legend.Rgb)>)
  {
    var zones := Legend.Keys(colours);
    if exists row :: row in rows && row.od.value !in zones then
      outcome.Stopped? && outcome.why.ZoneWithoutColour? && FirstUncoloured(rows, colours, outcome.why.zone)
    else if exists z :: z in zones && Legend.LegendPrice(narrowed, z).None? then
      outcome.Stopped? && outcome.why.ZoneWithoutFare? && FirstUnpriced(zones, narrowed, outcome.why.zone)
    else
      outcome.Drawn? &&
      |outcome.markers| == |rows| &&
      (forall i :: 0 <= i < |rows| ==> Legend.ColourIn(colours, rows[i].od.value) == Some(outcome.markers[i])) &&
      |outcome.legend| == |zones| &&
      forall i :: 0 <= i < |zones| ==>
        Legend.LegendPrice(narrowed, zones[i]).Some? &&
        outcome.legend[i] == Legend.LegendCell(zones[i], Legend.LegendPrice(narrowed, zones[i]).value)
  }

  /** How lines 188-247 end, given the narrowed fare table and the joined
      rows: the origin as destination leaves the markers unassigned;
      otherwise the rows `Selection.Display` picks are coloured and the
      legend priced as `MarksAndPrices` says. */
  predicate DrawsAsScript(outcome: Outcome, narrowed: seq<FareRow>, joined: seq<Resolved>,
                          colours: seq<(string, Legend.Rgb)>, origin: string, destination: string)
  {
    var shown := Selection.Display(joined, origin, destination);
    if shown.Unassigned? then outcome == Stopped(MarkersUnassigned)
    else MarksAndPrices(outcome, narrowed, shown.rows, colours)
  }

  /** The script's ending is determined: no two outcomes both fit
      `MarksAndPrices` for the same rows, fare table and colours. */
  lemma MarksAndPricesIsDeterministic(o1: Outcome, o2: Outcome, narrowed: seq<FareRow>, rows: seq<Resolved>,
                                      colours: seq<(string, Legend.Rgb)>)
    requires MarksAndPrices(o1, narrowed, rows, colours) && MarksAndPrices(o2, narrowed, rows, colours)
    ensures o1 == o2
  {
  }

  /** What every ending of lines 188-247 tells the reader: the markers are
      unassigned exactly for the origin as destination, a missing colour
      belongs to a joined row, a missing legend price is a colour zone that
      has no fare row for the chosen payment means and ticket type, and a
      drawn legend prices every colour zone. */
  lemma ScriptOutcomeFacts(outcome: Outcome, fares: seq<FareRow>, payment: string, ticket: string,
                           joined: seq<Resolved>, colours: seq<(string, Legend.Rgb)>, origin: string, destination: string)
    requires DrawsAsScript(outcome, FareTable.Narrow(fares, payment, ticket), joined, colours, origin, destination)
    ensures outcome == Stopped(MarkersUnassigned) <==>
      destination != Choices.AnyDestination && destination == origin
    ensures outcome.Stopped? && outcome.why.ZoneWithoutColour? ==>
      exists row :: row in joined && row.od.value == outcome.why.zone && row.od.value !in Legend.Keys(colours)
    ensures outcome.Stopped? && outcome.why.ZoneWithoutFare? ==>
      outcome.why.zone in Legend.Keys(colours) &&
      forall row :: row in fares ==> !(row.payment == payment && row.ticket == ticket && row.zone == outcome.why.zone)
    ensures outcome.Drawn? ==>
      forall z :: z in Legend.Keys(colours) ==>
        exists row :: row in fares && row.payment == payment && row.ticket == ticket && row.zone == z
  {
    var narrowed := FareTable.Narrow(fares, payment, ticket);
    var shown := Selection.Display(joined, origin, destination);
    var zones := Legend.Keys(colours);
    if shown.Unassigned? {
    } else if exists row :: row in shown.rows && row.od.value !in zones {
      var i :| 0 <= i < |shown.rows| && shown.rows[i].od.value == outcome.why.zone && outcome.why.zone !in zones;
      ShownRowsAreJoined(joined, origin, destination, shown.rows[i]);
    } else if exists z :: z in zones && Legend.LegendPrice(narrowed, z).None? {
      var i :| 0 <= i < |zones| && zones[i] == outcome.why.zone && Legend.LegendPrice(narrowed, outcome.why.zone).None?;
      Legend.LegendShowsCheapestFare(fares, payment, ticket, outcome.why.zone);
    } else {
      forall z | z in zones
        ensures exists row :: row in fares && row.payment == payment && row.ticket == ticket && row.zone == z
      {
        Legend.LegendShowsCheapestFare(fares, payment, ticket, z);
      }
    }
  }

  /** Lines 188-247 after the joins: choose the rows to mark, colour them
      from `colours`, then price every zone of `colours` from the narrowed
      table. */
  method Draw(fares: seq<FareRow>, payment: string, ticket: string, joined: seq<Resolved>,
              colours: seq<(string, Legend.Rgb)>, origin: string, destination: string)
    returns (outcome: Outcome)
    ensures DrawsAsScript(outcome, FareTable.Narrow(fares, payment, ticket), joined, colours, origin, destination)
    ensures outcome == Stopped(MarkersUnassigned) <==>
      destination != Choices.AnyDestination && destination == origin
    ensures outcome.Stopped? && outcome.why.ZoneWithoutColour? ==>
      exists row :: row in joined && row.od.value == outcome.why.zone && row.od.value !in Legend.Keys(colours)
    ensures outcome.Stopped? && outcome.why.ZoneWithoutFare? ==>
      outcome.why.zone in Legend.Keys(colours) &&
      forall row :: row in fares ==> !(row.payment == payment && row.ticket == ticket && row.zone == outcome.why.zone)
    ensures outcome.Drawn? ==>
      forall z :: z in Legend.Keys(colours) ==>
        exists row :: row in fares && row.payment == payment && row.ticket == ticket && row.zone == z
  {
    var narrowed := FareTable.Narrow(fares, payment, ticket);
    var shown := Selection.Display(joined, origin, destination);
    if shown.Unassigned? {
      outcome := Stopped(MarkersUnassigned);
    } else {
      outcome := MarkAndPrice(shown.rows, narrowed, colours);
    }
    ScriptOutcomeFacts(outcome, fares, payment, ticket, joined, colours, origin, destination);
  }

  /** Lines 196-247: colour every row to mark (lines 196-214), then price
      every colour zone from the narrowed table (lines 240-247). */
  method MarkAndPrice(rows: seq<Resolved>, narrowed: seq<FareRow>, colours: seq<(string, Legend.Rgb)>)
    returns (outcome: Outcome)
    ensures MarksAndPrices(outcome, narrowed, rows, colours)
  {
    var marked := Legend.MarkerColours(rows, colours);
    if marked.KeyMissing? {
      outcome := Stopped(ZoneWithoutColour(marked.key));
      ColourStopIsFirst(rows, colours, marked.key);
      return;
    }
    var zones := Legend.Keys(colours);
    var legend := Legend.LegendPrices(zones, narrowed);
    if legend.KeyMissing? {
      outcome := Stopped(ZoneWithoutFare(legend.key));
      PriceStopIsFirst(zones, narrowed, legend.key);
    } else {
      outcome := Drawn(marked.values, legend.values);
      assert forall i :: 0 <= i < |zones| ==> zones[i] in zones;
    }
  }

  /** Helper: the key at which the legend loop stops is the first unpriced
      zone, in the terms of `FirstUnpriced`. */
  lemma PriceStopIsFirst(zones: seq<string>, narrowed: seq<FareRow>, zone: string)
    requires exists i ::
      0 <= i < |zones| && zones[i] == zone && Legend.LegendPrice(narrowed, zone).None? &&
      forall j :: 0 <= j < i ==> Legend.LegendPrice(narrowed, zones[j]).Some?
    ensures FirstUnpriced(zones, narrowed, zone)
    ensures exists z :: z in zones && Legend.LegendPrice(narrowed, z).None?
  {
  }

  /** Helper: the key at which the marker loop stops is the first uncoloured
      zone, in the terms of `FirstUncoloured`. */
  lemma ColourStopIsFirst(rows: seq<Resolved>, colours: seq<(string, Legend.Rgb)>, zone: string)
    requires exists i ::
      0 <= i < |rows| && rows[i].od.value == zone && Legend.ColourIn(colours, zone).None? &&
      forall j :: 0 <= j < i ==> Legend.ColourIn(colours, rows[j].od.value).Some?
    ensures FirstUncoloured(rows, colours, zone)
    ensures exists row :: row in rows && row.od.value !in Legend.Keys(colours)
  {
  }

  /** The whole script; it runs with `colours` = `Legend.ZoneColours`. */
  method Run(od: seq<ODRow>, fares: seq<FareRow>, stations: seq<Station>, colours: seq<(string, Legend.Rgb)>,
             payment: string, ticket: string, origin: string, destination: string)
    returns (page: Page)
    ensures page.payments == FareTable.PaymentChoices(fares)
    ensures page.tickets == FareTable.TicketChoices(fares, payment)
    ensures page.origins == Choices.OriginList(od)
    ensures page.destinations == Choices.DestinationList(od)
    ensures page.joined == Joins.ResolveFares(od, stations, FareTable.Narrow(fares, payment, ticket), origin)
    ensures page.outcome == Stopped(MarkersUnassigned) <==>
      destination != Choices.AnyDestination && destination == origin
    ensures page.outcome.Stopped? && page.outcome.why.ZoneWithoutFare? ==>
      forall row :: row in fares ==> !(row.payment == payment && row.ticket == ticket && row.zone == page.outcome.why.zone)
    ensures DrawsAsScript(page.outcome, FareTable.Narrow(fares, payment, ticket), page.joined, colours, origin, destination)
    ensures destination == origin ==> page.sidebar == [Selection.SameStationWarning]
    ensures destination == Choices.AnyDestination && destination != origin ==> page.sidebar == []
    ensures destination != origin && destination != Choices.AnyDestination ==>
      page.sidebar == [Selection.SelectedHeading, Selection.SelectedJourney(DropLast(payment), ticket, origin, destination)]
                      + Selection.ZoneLines(page.joined, origin, destination)
  {
    var narrowed := FareTable.Narrow(fares, payment, ticket);
    var joined := Joins.ResolveFares(od, stations, narrowed, origin);
    var sidebar := Selection.Sidebar(joined, payment, ticket, origin, destination);
    var outcome := Draw(fares, payment, ticket, joined, colours, origin, destination);
    page := Page(FareTable.PaymentChoices(fares), FareTable.TicketChoices(fares, payment),
                 Choices.OriginList(od), Choices.DestinationList(od), sidebar, joined, outcome);
  }

  lemma ShownRowsAreJoined(joined: seq<Resolved>, origin: string, destination: string, row: Resolved)
    requires Selection.Display(joined, origin, destination).Shown?
    requires row in Selection.Display(joined, origin, destination).rows
    ensures row in joined
  {
  }
}
