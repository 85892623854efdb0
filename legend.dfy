/** The two dictionary lookups that can stop the page: the marker colour
    of a joined row's zone (code/FareCalcMap.py lines 103-117 and 211) and
    the price the horizontal legend shows under each coloured zone
    (lines 240-244). */
module Legend {
  import opened Tables
  import FareTable

  /** An RGB triple of `colour_dict2`, on the 0-255 scale. */
  datatype Rgb = Rgb(red: int, green: int, blue: int)

  /** The outcome of a loop of dictionary or table lookups: every value
      found, or the first key that had none (the `KeyError` or
      `IndexError` that ends the script). */
  datatype Lookup<T> = Found(values: seq<T>) | KeyMissing(key: string)

  /** A column of the legend: a zone and the price written under it. */
  datatype LegendCell = LegendCell(zone: string, price: int)

  /** `colour_dict2`, in insertion order. */
  const ZoneColours: seq<(string, Rgb)> := [
    ("D1", Rgb(252, 137, 5)),
    ("D2", Rgb(245, 225, 2)),
    ("D10", Rgb(136, 245, 2)),
    ("D14", Rgb(3, 166, 6)),
    ("D11", Rgb(2, 242, 238)),
    ("D90", Rgb(2, 242, 238)),
    ("D12", Rgb(2, 110, 242)),
    ("D91", Rgb(2, 110, 242)),
    ("D13", Rgb(1, 31, 138)),
    ("D92", Rgb(1, 31, 138)),
    ("D93", Rgb(112, 4, 201)),
    ("D94", Rgb(247, 2, 231)),
    ("D95", Rgb(184, 4, 79))
  ]

  /** The keys of a colour dictionary, in insertion order. */
  function Keys(colours: seq<(string, Rgb)>): (r: seq<string>)
    ensures |r| == |colours| && forall i :: 0 <= i < |r| ==> r[i] == colours[i].0
  {
    seq(|colours|, i requires 0 <= i < |colours| => colours[i].0)
  }

  /** The thirteen zones of `colour_dict2`, all distinct, in the order the
      legend lists them. */
  lemma ZoneColourKeys()
    ensures Keys(ZoneColours) == ["D1", "D2", "D10", "D14", "D11", "D90", "D12", "D91", "D13", "D92", "D93", "D94", "D95"]
    ensures forall i, j :: 0 <= i < j < |ZoneColours| ==> Keys(ZoneColours)[i] != Keys(ZoneColours)[j]
  {
  }

  /** `colours[zone]`; `None` is the `KeyError`. */
  function ColourIn(table: seq<(string, Rgb)>, zone: string): (r: Option<Rgb>)
    ensures r.None? <==> zone !in Keys(table)
    ensures r.Some? ==> exists i :: 0 <= i < |table| && table[i] == (zone, r.value)
  {
    if table == [] then None
    else if table[0].0 == zone then Some(table[0].1)
    else
      var r := ColourIn(table[1..], zone);
      assert forall i :: 1 <= i < |table| ==> table[i] == table[1..][i - 1];
      r
  }

  /** The colour lookup of the marker loop (lines 196-214), given the
      colour dictionary (`ZoneColours` in the script): each shown row is
      coloured by its zone `Value`; the first zone missing from the
      dictionary stops the loop. */
  method MarkerColours(shown: seq<Resolved>, colours: seq<(string, Rgb)>) returns (r: Lookup<Rgb>)
    ensures r.Found? <==> forall row :: row in shown ==> ColourIn(colours, row.od.value).Some?
    ensures r.Found? ==>
      (|r.values| == |shown| &&
       forall i :: 0 <= i < |shown| ==> ColourIn(colours, shown[i].od.value) == Some(r.values[i]))
    ensures r.KeyMissing? ==>
      (exists i ::
         0 <= i < |shown| && shown[i].od.value == r.key && ColourIn(colours, r.key).None? &&
         forall j :: 0 <= j < i ==> ColourIn(colours, shown[j].od.value).Some?)
  {
    var found: seq<Rgb> := [];
    var i := 0;
    while i < |shown|
      invariant 0 <= i <= |shown| && |found| == i
      invariant forall j :: 0 <= j < i ==> ColourIn(colours, shown[j].od.value) == Some(found[j])
    {
      var c := ColourIn(colours, shown[i].od.value);
      if c.None? {
        assert shown[i] in shown;
        return KeyMissing(shown[i].od.value);
      }
      found := found + [c.value];
      i := i + 1;
    }
    assert forall row :: row in shown ==> exists j :: 0 <= j < |shown| && shown[j] == row;
    return Found(found);
  }

  /** `fares_df.loc[fares_df["FareZone"] == zone, "Fare"].iloc[0]`: the fare
      of the first row of the zone; `None` is the `IndexError`. */
  function LegendPrice(fares: seq<FareRow>, zone: string): (r: Option<int>)
    ensures r.None? <==> forall row :: row in fares ==> row.zone != zone
    ensures r.Some? ==>
      (exists i ::
         0 <= i < |fares| && fares[i].zone == zone && fares[i].fare == r.value &&
         forall j :: 0 <= j < i ==> fares[j].zone != zone)
  {
    if fares == [] then None
    else if fares[0].zone == zone then Some(fares[0].fare)
    else
      var r := LegendPrice(fares[1..], zone);
      assert forall i :: 1 <= i < |fares| ==> fares[i] == fares[1..][i - 1];
      r
  }

  /** In the sorted fare table the first row of a zone has its lowest fare. */
  lemma LegendPriceIsCheapest(fares: seq<FareRow>, zone: string, row: FareRow)
    requires FareTable.SortedByFare(fares)
    requires row in fares && row.zone == zone
    ensures LegendPrice(fares, zone).Some? && LegendPrice(fares, zone).value <= row.fare
  {
  }

  /** The legend price of a zone is the lowest fare the table lists for the
      chosen payment means, ticket type and that zone. */
  lemma LegendShowsCheapestFare(fares: seq<FareRow>, payment: string, ticket: string, zone: string)
    ensures var r := LegendPrice(FareTable.Narrow(fares, payment, ticket), zone);
      (r.None? <==> forall row :: row in fares ==> !(row.payment == payment && row.ticket == ticket && row.zone == zone)) &&
      (r.Some? ==> (exists row :: row in fares && row.payment == payment && row.ticket == ticket && row.zone == zone && row.fare == r.value) &&
                   forall row :: row in fares && row.payment == payment && row.ticket == ticket && row.zone == zone ==> r.value <= row.fare)
  {
  }

  /** The price row of the horizontal legend (lines 240-247): one cell per
      colour zone, in the order of `colour_dict2`; a zone without a fare row
      stops the loop. */
  method LegendPrices(zones: seq<string>, fares: seq<FareRow>) returns (r: Lookup<LegendCell>)
    ensures r.Found? <==> forall z :: z in zones ==> LegendPrice(fares, z).Some?
    ensures r.Found? ==> (|r.values| == |zones| &&
      forall i :: 0 <= i < |zones| ==> r.values[i] == LegendCell(zones[i], LegendPrice(fares, zones[i]).value))
    ensures r.KeyMissing? ==>
      (exists i ::
         0 <= i < |zones| && zones[i] == r.key && LegendPrice(fares, r.key).None? &&
         forall j :: 0 <= j < i ==> LegendPrice(fares, zones[j]).Some?)
  {
    var cells: seq<LegendCell> := [];
    var i := 0;
    while i < |zones|
      invariant 0 <= i <= |zones| && |cells| == i
      invariant forall j :: 0 <= j < i ==>
        LegendPrice(fares, zones[j]).Some? && cells[j] == LegendCell(zones[j], LegendPrice(fares, zones[j]).value)
    {
      var price := LegendPrice(fares, zones[i]);
      if price.None? {
        assert zones[i] in zones;
        return KeyMissing(zones[i]);
      }
      cells := cells + [LegendCell(zones[i], price.value)];
      i := i + 1;
    }
    assert forall z :: z in zones ==> exists j :: 0 <= j < |zones| && zones[j] == z;
    return Found(cells);
  }
}
