/** The relational part of the fare lookup (code/FareCalcMap.py lines
    74-82): the OD rows of the chosen origin, inner-joined to the stations
    on `Destination = stop_name`, then to the narrowed fare table on
    `Value = FareZone`. An inner merge is modelled as a nested loop: left
    rows in order, and for each of them every matching right row in order;
    a left row without a match contributes nothing. */
module Joins {
  import opened Tables
  import Rows

  /** `fare_zone_data.loc[fare_zone_data["Origin"] == origin]`. */
  function FromOrigin(od: seq<ODRow>, origin: string): (r: seq<ODRow>)
    ensures forall row :: multiset(r)[row] == if row.origin == origin then multiset(od)[row] else 0
    ensures Rows.SubsequenceOf(r, od)
  {
    Rows.Filter(od, (row: ODRow) => row.origin == origin)
  }

  /** The merge output for one OD row: one row per station named like its
      destination, in station-table order. */
  function StationsFor(row: ODRow, stations: seq<Station>): (r: seq<Located>)
    ensures forall x :: x in r <==> x.od == row && x.station in stations && x.station.stopName == row.destination
  {
    if stations == [] then []
    else
      assert forall st :: st in stations <==> st == stations[0] || st in stations[1..];
      (if stations[0].stopName == row.destination then [Located(row, stations[0])] else [])
      + StationsFor(row, stations[1..])
  }

  /** `.merge(rail_nodes, left_on="Destination", right_on="stop_name")`:
      for each OD row in order, its matching stations in order. */
  function JoinStations(rows: seq<ODRow>, stations: seq<Station>): (r: seq<Located>)
    ensures forall x :: x in r <==> x.od in rows && x.station in stations && x.station.stopName == x.od.destination
  {
    if rows == [] then []
    else
      assert forall o :: o in rows <==> o == rows[0] || o in rows[1..];
      StationsFor(rows[0], stations) + JoinStations(rows[1..], stations)
  }

  /** The merge output for one located row: one row per fare row of its zone. */
  function FaresFor(loc: Located, fares: seq<FareRow>): (r: seq<Resolved>)
    ensures forall x :: x in r <==> Located(x.od, x.station) == loc && x.fare in fares && x.fare.zone == loc.od.value
  {
    if fares == [] then []
    else
      assert forall f :: f in fares <==> f == fares[0] || f in fares[1..];
      (if fares[0].zone == loc.od.value then [Resolved(loc.od, loc.station, fares[0])] else [])
      + FaresFor(loc, fares[1..])
  }

  /** `.merge(fares_df, left_on="Value", right_on="FareZone")`: for each
      located row in order, its matching fare rows in order. */
  function JoinFares(rows: seq<Located>, fares: seq<FareRow>): (r: seq<Resolved>)
    ensures forall x :: x in r <==> Located(x.od, x.station) in rows && x.fare in fares && x.fare.zone == x.od.value
  {
    if rows == [] then []
    else
      assert forall l :: l in rows <==> l == rows[0] || l in rows[1..];
      FaresFor(rows[0], fares) + JoinFares(rows[1..], fares)
  }

  /** `fares_from_chosen_station`: every joined row starts at the origin,
      ends at a listed station and carries a fare row of its own zone, and
      every such combination of input rows is joined. */
  function ResolveFares(od: seq<ODRow>, stations: seq<Station>, fares: seq<FareRow>, origin: string): (r: seq<Resolved>)
    ensures forall x :: x in r <==>
      x.od in od && x.station in stations && x.fare in fares && Matches(origin, x.od, x.station, x.fare)
  {
    var from := FromOrigin(od, origin);
    assert forall o :: o in from <==> o in od && o.origin == origin by {
      forall o ensures o in from <==> o in od && o.origin == origin {
        assert o in from <==> o in multiset(from);
        assert o in od <==> o in multiset(od);
      }
    }
    JoinFares(JoinStations(from, stations), fares)
  }

  lemma MulSucc(k: nat, n: nat)
    ensures (k + 1) * n == k * n + n
  {
  }

  lemma MulZero(k: nat, n: nat)
    ensures 0 * k * n == 0 && k * 0 == 0
  {
  }

  lemma {:induction false} StationsForCount(row: ODRow, stations: seq<Station>, o: ODRow, s: Station)
    ensures multiset(StationsFor(row, stations))[Located(o, s)] ==
      if row == o && s.stopName == o.destination then multiset(stations)[s] else 0
  {
    if stations != [] {
      StationsForCount(row, stations[1..], o, s);
      assert stations == [stations[0]] + stations[1..];
    }
  }

  /** Inner-join multiplicity: the pair (OD row, station) appears once per
      copy of each, and only when the station's name is the destination. */
  lemma {:induction false} JoinStationsCount(rows: seq<ODRow>, stations: seq<Station>, o: ODRow, s: Station)
    ensures multiset(JoinStations(rows, stations))[Located(o, s)] ==
      if s.stopName == o.destination then multiset(rows)[o] * multiset(stations)[s] else 0
  {
    if rows != [] {
      var head, tail := StationsFor(rows[0], stations), JoinStations(rows[1..], stations);
      JoinStationsCount(rows[1..], stations, o, s);
      StationsForCount(rows[0], stations, o, s);
      assert JoinStations(rows, stations) == head + tail;
      assert multiset(JoinStations(rows, stations))[Located(o, s)]
          == multiset(head)[Located(o, s)] + multiset(tail)[Located(o, s)];
      assert rows == [rows[0]] + rows[1..];
      assert multiset(rows)[o] == (if rows[0] == o then 1 else 0) + multiset(rows[1..])[o];
      if rows[0] == o {
        MulSucc(multiset(rows[1..])[o], multiset(stations)[s]);
      }
    }
  }

  lemma {:induction false} FaresForCount(loc: Located, fares: seq<FareRow>, o: ODRow, s: Station, f: FareRow)
    ensures multiset(FaresFor(loc, fares))[Resolved(o, s, f)] ==
      if loc == Located(o, s) && f.zone == o.value then multiset(fares)[f] else 0
  {
    if fares != [] {
      FaresForCount(loc, fares[1..], o, s, f);
      assert fares == [fares[0]] + fares[1..];
    }
  }

  /** Inner-join multiplicity for the second merge. */
  lemma {:induction false} JoinFaresCount(rows: seq<Located>, fares: seq<FareRow>, o: ODRow, s: Station, f: FareRow)
    ensures multiset(JoinFares(rows, fares))[Resolved(o, s, f)] ==
      if f.zone == o.value then multiset(rows)[Located(o, s)] * multiset(fares)[f] else 0
  {
    if rows != [] {
      var key, out := Located(o, s), Resolved(o, s, f);
      var head, tail := FaresFor(rows[0], fares), JoinFares(rows[1..], fares);
      var k, n := multiset(rows[1..])[key], multiset(fares)[f];
      JoinFaresCount(rows[1..], fares, o, s, f);
      assert multiset(tail)[out] == if f.zone == o.value then k * n else 0;
      FaresForCount(rows[0], fares, o, s, f);
      assert multiset(head)[out] == if rows[0] == key && f.zone == o.value then n else 0;
      assert JoinFares(rows, fares) == head + tail;
      assert rows == [rows[0]] + rows[1..];
      assert multiset(rows)[key] == (if rows[0] == key then 1 else 0) + k;
      assert multiset(JoinFares(rows, fares))[out] == multiset(head)[out] + multiset(tail)[out];
      if f.zone != o.value {
      } else if rows[0] == key {
        MulSucc(k, n);
        assert multiset(rows)[key] == k + 1;
      } else {
        assert multiset(rows)[key] == k;
      }
    }
  }

  /** Whether (o, s, f) is a row the two joins can produce from `origin`. */
  predicate Matches(origin: string, o: ODRow, s: Station, f: FareRow)
  {
    o.origin == origin && s.stopName == o.destination && f.zone == o.value
  }

  /** How many (OD row, station, fare row) triples equal to `(o, s, f)` the
      three tables hold between them. */
  function Copies(od: seq<ODRow>, stations: seq<Station>, fares: seq<FareRow>,
                  o: ODRow, s: Station, f: FareRow): int
  {
    multiset(od)[o] * multiset(stations)[s] * multiset(fares)[f]
  }

  /** The joined table holds each matching (OD row, station, fare row)
      triple exactly (copies of the OD row) x (copies of the station) x
      (copies of the fare row) times, and nothing else: an OD row without a
      station of its destination or without a fare row of its zone
      disappears. */
  lemma ResolveFaresCount(od: seq<ODRow>, stations: seq<Station>, fares: seq<FareRow>, origin: string,
                          o: ODRow, s: Station, f: FareRow)
    ensures multiset(ResolveFares(od, stations, fares, origin))[Resolved(o, s, f)] ==
      if Matches(origin, o, s, f) then Copies(od, stations, fares, o, s, f) else 0
  {
    var from := FromOrigin(od, origin);
    JoinStationsCount(from, stations, o, s);
    JoinFaresCount(JoinStations(from, stations), fares, o, s, f);
    if o.origin != origin {
      MulZero(multiset(from)[o], multiset(stations)[s]);
    }
  }
}
