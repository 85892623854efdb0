/** The three tables the fare map reads, one record per row, and the rows
    that the two inner joins produce. Fares are whole cents. */
module Tables {

  /** A row of `OD_Pairs2.csv`: the fare zone (`Value`) of a journey. */
  datatype ODRow = ODRow(origin: string, destination: string, value: string)

  /** A row of `Fares.csv`. */
  datatype FareRow = FareRow(payment: string, ticket: string, zone: string, fare: int)

  /** A row of the rail-station shape file; only the join key matters here. */
  datatype Station = Station(stopName: string)

  /** A row of the merge of OD rows with stations (`Destination = stop_name`). */
  datatype Located = Located(od: ODRow, station: Station)

  /** A row of the second merge, with the narrowed fare table (`Value = FareZone`). */
  datatype Resolved = Resolved(od: ODRow, station: Station, fare: FareRow)

  datatype Option<+T> = None | Some(value: T)

  /** Python's `s[:-1]`: every character but the last; empty stays empty. */
  function DropLast(s: string): (r: string)
    ensures |s| > 0 ==> |r| == |s| - 1 && s == r + [s[|s| - 1]]
    ensures |s| == 0 ==> r == []
  {
    if |s| == 0 then s else s[..|s| - 1]
  }
}
