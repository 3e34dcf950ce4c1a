/** What the RFM table promises as a whole: bounds on every column, a
    customer with recency 0, every price counted exactly once, insensitivity to
    the time of day, and a worked example. */
module RfmProperties {
  import opened Orders
  import opened StringOrder
  import opened RfmSpec
  import opened Rfm

  /** Recency is never negative and frequency is at least 1. */
  lemma RecencyAndFrequencyBounds(rows: seq<Row>, e: CustomerRfm)
    requires e in CreateRfm(rows)
    ensures e.recency >= 0 && e.frequency >= 1
  {
    CreateRfmMeetsSpec(rows);
    RecencyNonNegative(rows, e.customerId);
    FrequencyPositive(rows, e.customerId);
  }

  /** With non-negative prices, monetary is non-negative. */
  lemma MonetaryBound(rows: seq<Row>, e: CustomerRfm)
    requires forall r :: r in rows ==> r.price >= 0
    requires e in CreateRfm(rows)
    ensures e.monetary >= 0
  {
    CreateRfmMeetsSpec(rows);
    MonetaryNonNegative(rows, e.customerId);
  }

  /** An output row has recency 0 exactly when one of its customer's
      purchases falls on the latest purchase date of the input. */
  lemma RecencyZeroIffLatest(rows: seq<Row>, e: CustomerRfm)
    requires e in CreateRfm(rows)
    ensures |rows| > 0
    ensures e.recency == 0 <==>
      exists r :: r in rows && r.customerId == e.customerId && r.purchasedAt.day == LatestDate(rows)
  {
    CreateRfmMeetsSpec(rows);
    RecencyZeroIff(rows, e.customerId);
  }

  /** The owner of a purchase on the latest date has an output row, and its
      recency is 0. */
  lemma SomeRowRecencyZero(rows: seq<Row>, r: Row)
    requires r in rows && r.purchasedAt.day == LatestDate(rows)
    ensures exists e :: e in CreateRfm(rows) && e.customerId == r.customerId && e.recency == 0
  {
    var table := CreateRfm(rows);
    var c := r.customerId;
    assert c in CustomerIds(rows);
    CreateRfmMeetsSpec(rows);
    assert c in Elements(Ids(table));
    var i :| 0 <= i < |table| && Ids(table)[i] == c;
    assert table[i] in table;
    RecencyZeroIff(rows, c);
  }

  /** The summed monetary column of a table. */
  function MonetaryTotal(table: seq<CustomerRfm>): (total: int)
    decreases |table|
  {
    if |table| == 0 then 0 else table[0].monetary + MonetaryTotal(table[1..])
  }

  function GroupsTotal(gs: seq<Group>): (total: int)
    decreases |gs|
  {
    if |gs| == 0 then 0 else gs[0].monetary + GroupsTotal(gs[1..])
  }

  lemma {:induction false} AddRowTotal(gs: seq<Group>, r: Row)
    ensures GroupsTotal(AddRow(gs, r)) == GroupsTotal(gs) + r.price
    decreases |gs|
  {
    if |gs| > 0 {
      var res := AddRow(gs, r);
      if gs[0].customerId == r.customerId {
        assert res[1..] == gs[1..];
      } else if Less(r.customerId, gs[0].customerId) {
        assert res[1..] == gs;
      } else {
        assert res[1..] == AddRow(gs[1..], r);
        AddRowTotal(gs[1..], r);
      }
    }
  }

  lemma {:induction false} GroupByTotal(rows: seq<Row>)
    ensures GroupsTotal(GroupBy(rows)) == TotalPrice(rows)
    decreases |rows|
  {
    if |rows| > 0 {
      GroupByTotal(rows[1..]);
      AddRowTotal(GroupBy(rows[1..]), rows[0]);
    }
  }

  lemma {:induction false} SameMonetaryColumn(table: seq<CustomerRfm>, gs: seq<Group>)
    requires |table| == |gs|
    requires forall i :: 0 <= i < |gs| ==> table[i].monetary == gs[i].monetary
    ensures MonetaryTotal(table) == GroupsTotal(gs)
    decreases |gs|
  {
    if |gs| > 0 {
      SameMonetaryColumn(table[1..], gs[1..]);
    }
  }

  /** The monetary column adds up to the total price of the input: every
      line item lands in exactly one customer's sum. */
  lemma MonetaryConserved(rows: seq<Row>)
    ensures MonetaryTotal(CreateRfm(rows)) == TotalPrice(rows)
  {
    GroupByTotal(rows);
    if |rows| > 0 {
      SameMonetaryColumn(CreateRfm(rows), GroupBy(rows));
    }
  }

  /** A customer's reference row ignores the time of day. */
  lemma SameExpected(a: seq<Row>, b: seq<Row>, c: string)
    requires SameExceptTimeOfDay(a, b) && c in CustomerIds(a)
    ensures c in CustomerIds(b) && Expected(a, c) == Expected(b, c)
  {
    SameAggregates(a, b);
    SameRowsOf(a, b, c);
    SameAggregates(RowsOf(a, c), RowsOf(b, c));
    SameLatestDate(a, b);
    RowsOfNonEmpty(a, c);
    SameLatestDate(RowsOf(a, c), RowsOf(b, c));
  }

  /** Moving any purchase to another time of the same day changes nothing in
      the table. */
  lemma TimeOfDayIrrelevant(a: seq<Row>, b: seq<Row>)
    requires SameExceptTimeOfDay(a, b)
    ensures CreateRfm(a) == CreateRfm(b)
  {
    var ta, tb := CreateRfm(a), CreateRfm(b);
    CreateRfmMeetsSpec(a);
    CreateRfmMeetsSpec(b);
    SameAggregates(a, b);
    AscendingUnique(Ids(ta), Ids(tb));
    assert |ta| == |Ids(ta)| == |Ids(tb)| == |tb|;
    forall i | 0 <= i < |ta| ensures ta[i] == tb[i] {
      assert Ids(ta)[i] == ta[i].customerId && Ids(tb)[i] == tb[i].customerId;
      assert ta[i] in ta && tb[i] in tb;
      SameExpected(a, b, ta[i].customerId);
    }
  }

  /** Two line items of one order, a second order ten days later, and the
      latest purchase of all belonging to another customer. Days count from
      1970-01-01: 17532 is 2018-01-01, 17541 is 2018-01-10 and 17546 is
      2018-01-15; prices are in cents. */
  lemma WorkedExample()
    ensures CreateRfm([
      Row("C1", "O1", Timestamp(17532, 36000), 1000),
      Row("C1", "O1", Timestamp(17532, 36000), 500),
      Row("C1", "O2", Timestamp(17541, 50000), 2000),
      Row("C2", "O3", Timestamp(17546, 600), 800)])
      == [CustomerRfm("C1", 2, 3500, 5), CustomerRfm("C2", 1, 800, 0)]
  {
    var r1 := Row("C1", "O1", Timestamp(17532, 36000), 1000);
    var r2 := Row("C1", "O1", Timestamp(17532, 36000), 500);
    var r3 := Row("C1", "O2", Timestamp(17541, 50000), 2000);
    var r4 := Row("C2", "O3", Timestamp(17546, 600), 800);
    var rows := [r1, r2, r3, r4];
    var g1 := Group("C1", Timestamp(17541, 50000), {"O1", "O2"}, 3500);
    var g2 := NewGroup(r4);
    // Both steps are spelled out: the unfolding of `CreateRfm` alone is near
    // the resource limit.
    ExampleGroups(r1, r2, r3, r4);
    assert GroupBy(rows) == [g1, g2];
    ExampleLatestDate(r1, r2, r3, r4);
    assert |g1.orderIds| == 2;
  }

  lemma ExampleGroups(r1: Row, r2: Row, r3: Row, r4: Row)
    requires r1 == Row("C1", "O1", Timestamp(17532, 36000), 1000)
    requires r2 == Row("C1", "O1", Timestamp(17532, 36000), 500)
    requires r3 == Row("C1", "O2", Timestamp(17541, 50000), 2000)
    requires r4 == Row("C2", "O3", Timestamp(17546, 600), 800)
    ensures GroupBy([r1, r2, r3, r4]) ==
      [Group("C1", Timestamp(17541, 50000), {"O1", "O2"}, 3500), NewGroup(r4)]
  {
    assert Less("C1", "C2") by {
      assert "C1"[1..] == "1" && "C2"[1..] == "2";
    }
    assert [r1, r2, r3, r4][1..] == [r2, r3, r4];
    assert [r2, r3, r4][1..] == [r3, r4];
    assert [r3, r4][1..] == [r4];
    assert GroupBy([r4]) == [NewGroup(r4)];
    assert GroupBy([r3, r4]) == AddRow([NewGroup(r4)], r3) == [NewGroup(r3), NewGroup(r4)];
    var g := Absorb(NewGroup(r3), r2);
    assert GroupBy([r2, r3, r4]) == [g, NewGroup(r4)];
    assert GroupBy([r1, r2, r3, r4]) == [Absorb(g, r1), NewGroup(r4)];
    assert g.lastPurchase == Timestamp(17541, 50000);
    assert g.orderIds == {"O1", "O2"};
    assert Absorb(g, r1).orderIds == {"O1", "O2"};
  }

  lemma ExampleLatestDate(r1: Row, r2: Row, r3: Row, r4: Row)
    requires r1.purchasedAt.day == 17532 && r2.purchasedAt.day == 17532
    requires r3.purchasedAt.day == 17541 && r4.purchasedAt.day == 17546
    ensures LatestDate([r1, r2, r3, r4]) == 17546
  {
  }
}
