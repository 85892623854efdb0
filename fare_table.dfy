/** Narrowing the fare table to one payment means and one ticket type,
    then ordering it by `Fare` with ties broken by `FareZone`
    (code/FareCalcMap.py lines 39-52). */
module FareTable {
  import opened StringOrder
  import opened Tables
  import Choices
  import Rows
  import Sorting

  /** `fares_df[fares_df["PaymentMeans"] == payment]`. */
  function WithPayment(fares: seq<FareRow>, payment: string): (r: seq<FareRow>)
    ensures forall row :: row in r <==> row in fares && row.payment == payment
    ensures forall row :: multiset(r)[row] == if row.payment == payment then multiset(fares)[row] else 0
    ensures Rows.SubsequenceOf(r, fares)
  {
    Rows.Filter(fares, (row: FareRow) => row.payment == payment)
  }

  /** `fares_df[fares_df["TicketType"] == ticket]`. */
  function WithTicket(fares: seq<FareRow>, ticket: string): (r: seq<FareRow>)
    ensures forall row :: row in r <==> row in fares && row.ticket == ticket
    ensures forall row :: multiset(r)[row] == if row.ticket == ticket then multiset(fares)[row] else 0
    ensures Rows.SubsequenceOf(r, fares)
  {
    Rows.Filter(fares, (row: FareRow) => row.ticket == ticket)
  }

  /** `payment_list`: the payment means of the whole table, each once. */
  function PaymentChoices(fares: seq<FareRow>): (r: seq<string>)
    ensures forall p :: p in r <==> exists row :: row in fares && row.payment == p
    ensures forall p :: multiset(r)[p] <= 1
  {
    Choices.Unique(Rows.Column(fares, (row: FareRow) => row.payment))
  }

  /** `ticket_list`: the ticket types offered for the chosen payment means,
      each once. */
  function TicketChoices(fares: seq<FareRow>, payment: string): (r: seq<string>)
    ensures forall t :: t in r <==> exists row :: row in fares && row.payment == payment && row.ticket == t
    ensures forall t :: multiset(r)[t] <= 1
  {
    Choices.Unique(Rows.Column(WithPayment(fares, payment), (row: FareRow) => row.ticket))
  }

  /** The order of `sort_values(["Fare", "FareZone"])`. */
  predicate FareLe(x: FareRow, y: FareRow)
  {
    x.fare < y.fare || (x.fare == y.fare && Below(x.zone, y.zone))
  }

  lemma FareLeIsTotalPreorder()
    ensures Sorting.TotalPreorder(FareLe)
  {
    forall x, y
      ensures FareLe(x, y) || FareLe(y, x)
    {
      BelowTotal(x.zone, y.zone);
    }
    forall x, y, z | FareLe(x, y) && FareLe(y, z)
      ensures FareLe(x, z)
    {
      if x.fare == y.fare == z.fare {
        BelowTransitive(x.zone, y.zone, z.zone);
      }
    }
  }

  predicate SortedByFare(s: seq<FareRow>)
  {
    Sorting.SortedBy(s, FareLe)
  }

  /** `sort_values(["Fare", "FareZone"])`: a permutation of the rows,
      ascending by fare, equal fares ascending by zone. */
  function SortFares(s: seq<FareRow>): (r: seq<FareRow>)
    ensures multiset(r) == multiset(s)
    ensures forall i, j :: 0 <= i < j < |r| ==>
      r[i].fare < r[j].fare || (r[i].fare == r[j].fare && Below(r[i].zone, r[j].zone))
  {
    FareLeIsTotalPreorder();
    Sorting.InsertionSort(s, FareLe)
  }

  /** The `fares_df` every later step reads: the rows of the chosen payment
      means and ticket type, sorted. No matching row is dropped and no
      other row kept. */
  function Narrow(fares: seq<FareRow>, payment: string, ticket: string): (r: seq<FareRow>)
    ensures forall row :: row in r ==> row.payment == payment && row.ticket == ticket
    ensures forall row :: multiset(r)[row] == if row.payment == payment && row.ticket == ticket then multiset(fares)[row] else 0
    ensures forall row :: row in r <==> row in fares && row.payment == payment && row.ticket == ticket
    ensures SortedByFare(r)
  {
    var r := SortFares(WithTicket(WithPayment(fares, payment), ticket));
    assert forall row :: row in r <==> row in multiset(r);
    r
  }

  /** Every row of `s` has the same payment means and ticket type. */
  predicate OneSlice(s: seq<FareRow>, payment: string, ticket: string)
  {
    forall row :: row in s ==> row.payment == payment && row.ticket == ticket
  }

  lemma {:induction false} SortedPermutationsAgree(a: seq<FareRow>, b: seq<FareRow>, payment: string, ticket: string)
    requires OneSlice(a, payment, ticket)
    requires multiset(a) == multiset(b)
    requires SortedByFare(a) && SortedByFare(b)
    ensures a == b
  {
    if a != [] {
      assert |b| == |multiset(b)| == |multiset(a)| == |a|;
      assert b[0] in multiset(a) && a[0] in multiset(b);
      if a[0] != b[0] {
        Sorting.HeadIsLeast(a, FareLe, b[0]);
        Sorting.HeadIsLeast(b, FareLe, a[0]);
        assert a[0] in a && b[0] in a;
        BelowAntisymmetric(a[0].zone, b[0].zone);
        assert false;
      }
      assert a == [a[0]] + a[1..] && b == [b[0]] + b[1..];
      assert multiset(a[1..]) == multiset(a) - multiset{a[0]};
      assert multiset(b[1..]) == multiset(b) - multiset{b[0]};
      Sorting.SortedTail(a, FareLe);
      Sorting.SortedTail(b, FareLe);
      assert OneSlice(a[1..], payment, ticket) by {
        forall row | row in a[1..] ensures row.payment == payment && row.ticket == ticket {
          assert row in a;
        }
      }
      SortedPermutationsAgree(a[1..], b[1..], payment, ticket);
    }
  }

  /** Any ordering of the narrowed rows by fare and zone is this one: rows
      with equal fare and zone in one slice are the same record, so the
      sort's stability cannot show. */
  lemma NarrowIsTheOnlySortedOrder(fares: seq<FareRow>, payment: string, ticket: string, s: seq<FareRow>)
    requires multiset(s) == multiset(WithTicket(WithPayment(fares, payment), ticket))
    requires SortedByFare(s)
    ensures s == Narrow(fares, payment, ticket)
  {
    var r := Narrow(fares, payment, ticket);
    assert forall row :: row in r <==> row in multiset(r);
    SortedPermutationsAgree(r, s, payment, ticket);
  }
}
