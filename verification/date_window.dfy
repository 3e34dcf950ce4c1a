/** The date-range filter that feeds `create_rfm_df`: the rows whose purchase
    timestamp lies between the chosen start and end dates. Each bare date is
    compared as the midnight that starts it. */
module DateWindow {
  import opened Orders
  import opened StringOrder
  import opened RfmSpec
  import opened Rfm

  /** `start_date <= order_purchase_timestamp <= end_date`, both dates as
      midnight timestamps; dates are day numbers. */
  predicate InWindow(t: Timestamp, startDate: int, endDate: int) {
    NotAfter(Midnight(startDate), t) && NotAfter(t, Midnight(endDate))
  }

  /** In day terms: from the start of the start date on, and before the end
      date or exactly at its midnight. Any later purchase on the end date
      falls outside. */
  lemma InWindowByDate(t: Timestamp, startDate: int, endDate: int)
    ensures InWindow(t, startDate, endDate) <==>
      startDate <= t.day && (t.day < endDate || t == Midnight(endDate))
  {
  }

  /** The boolean-mask selection: the rows in the window, in their order. */
  function FilterWindow(rows: seq<Row>, startDate: int, endDate: int): (kept: seq<Row>)
    ensures forall r :: r in kept <==> r in rows && InWindow(r.purchasedAt, startDate, endDate)
    ensures |kept| <= |rows|
    decreases |rows|
  {
    if |rows| == 0 then []
    else
      (if InWindow(rows[0].purchasedAt, startDate, endDate) then [rows[0]] else [])
      + FilterWindow(rows[1..], startDate, endDate)
  }

  /** The filter keeps every copy of a repeated row in the window. */
  lemma {:induction false} FilterWindowCounts(rows: seq<Row>, startDate: int, endDate: int, r: Row)
    ensures multiset(FilterWindow(rows, startDate, endDate))[r] ==
      if InWindow(r.purchasedAt, startDate, endDate) then multiset(rows)[r] else 0
    decreases |rows|
  {
    if |rows| > 0 {
      FilterWindowCounts(rows[1..], startDate, endDate, r);
      assert rows == [rows[0]] + rows[1..];
    }
  }

  /** The RFM table of the filtered rows has a row for a customer exactly when
      one of that customer's purchases is in the window: a customer with no
      kept row is absent, never a row of zeros. */
  lemma WindowedCustomers(rows: seq<Row>, startDate: int, endDate: int, c: string)
    ensures c in Elements(Ids(CreateRfm(FilterWindow(rows, startDate, endDate)))) <==>
      exists r :: r in rows && r.customerId == c && InWindow(r.purchasedAt, startDate, endDate)
  {
    CreateRfmMeetsSpec(FilterWindow(rows, startDate, endDate));
  }

  /** The rows of the worked example, filtered to 2018-01-01 .. 2018-01-10:
      the second order, placed at 13:53 on the end date, and the other
      customer's only purchase, on 2018-01-15, are both dropped. */
  lemma WindowExample()
    ensures CreateRfm(FilterWindow([
      Row("C1", "O1", Timestamp(17532, 36000), 1000),
      Row("C1", "O1", Timestamp(17532, 36000), 500),
      Row("C1", "O2", Timestamp(17541, 50000), 2000),
      Row("C2", "O3", Timestamp(17546, 600), 800)], 17532, 17541))
      == [CustomerRfm("C1", 1, 1500, 0)]
  {
    var r1 := Row("C1", "O1", Timestamp(17532, 36000), 1000);
    var r2 := Row("C1", "O1", Timestamp(17532, 36000), 500);
    var r3 := Row("C1", "O2", Timestamp(17541, 50000), 2000);
    var r4 := Row("C2", "O3", Timestamp(17546, 600), 800);
    var rows := [r1, r2, r3, r4];
    assert rows[1..] == [r2, r3, r4] && [r2, r3, r4][1..] == [r3, r4] && [r3, r4][1..] == [r4];
    assert FilterWindow([r4], 17532, 17541) == [];
    assert FilterWindow([r3, r4], 17532, 17541) == [];
    assert FilterWindow(rows, 17532, 17541) == [r1, r2];
    assert [r1, r2][1..] == [r2];
    assert GroupBy([r2]) == [NewGroup(r2)];
    var g := Absorb(NewGroup(r2), r1);
    assert GroupBy([r1, r2]) == [g];
    assert g.orderIds == {"O1"};
    assert r1 in [r1, r2];
    assert LatestDate([r1, r2]) == 17532;
  }
}
