/** Reference definitions of the Recency / Frequency / Monetary values of one
    customer, stated directly over the order-line rows, independently of how
    the dashboard groups them. */
module RfmSpec {
  import opened Orders

  /** The distinct customers that have at least one row. */
  function CustomerIds(rows: seq<Row>): (ids: set<string>) {
    set r | r in rows :: r.customerId
  }

  /** The distinct orders among the rows (`nunique` of `order_id`). */
  function OrderIds(rows: seq<Row>): (ids: set<string>) {
    set r | r in rows :: r.orderId
  }

  /** The rows of customer `c`, in their original order. */
  function RowsOf(rows: seq<Row>, c: string): (mine: seq<Row>)
    ensures forall r :: r in mine <==> r in rows && r.customerId == c
    ensures |mine| <= |rows|
    decreases |rows|
  {
    if |rows| == 0 then []
    else (if rows[0].customerId == c then [rows[0]] else []) + RowsOf(rows[1..], c)
  }

  /** A customer's rows keep every copy of a repeated line item: nothing is
      deduplicated. */
  lemma {:induction false} RowsOfCounts(rows: seq<Row>, c: string, r: Row)
    ensures multiset(RowsOf(rows, c))[r] == if r.customerId == c then multiset(rows)[r] else 0
    decreases |rows|
  {
    if |rows| > 0 {
      RowsOfCounts(rows[1..], c, r);
      assert rows == [rows[0]] + rows[1..];
    }
  }

  /** The sum of the prices of all rows, every line item counted. */
  function TotalPrice(rows: seq<Row>): (total: int)
    decreases |rows|
  {
    if |rows| == 0 then 0 else rows[0].price + TotalPrice(rows[1..])
  }

  /** The latest purchase timestamp among the rows. */
  function LatestTimestamp(rows: seq<Row>): (t: Timestamp)
    requires |rows| > 0
    ensures exists r :: r in rows && r.purchasedAt == t
    ensures forall r :: r in rows ==> NotAfter(r.purchasedAt, t)
    decreases |rows|
  {
    if |rows| == 1 then rows[0].purchasedAt
    else
      assert rows == [rows[0]] + rows[1..];
      Later(rows[0].purchasedAt, LatestTimestamp(rows[1..]))
  }

  /** The latest purchase date among the rows, time of day discarded first. */
  function LatestDate(rows: seq<Row>): (d: int)
    requires |rows| > 0
    ensures exists r :: r in rows && r.purchasedAt.day == d
    ensures forall r :: r in rows ==> r.purchasedAt.day <= d
    decreases |rows|
  {
    if |rows| == 1 then rows[0].purchasedAt.day
    else
      assert rows == [rows[0]] + rows[1..];
      var rest := LatestDate(rows[1..]);
      if rows[0].purchasedAt.day <= rest then rest else rows[0].purchasedAt.day
  }

  /** Taking the date of the latest timestamp gives the latest date. */
  lemma DateOfLatestTimestamp(rows: seq<Row>)
    requires |rows| > 0
    ensures LatestTimestamp(rows).day == LatestDate(rows)
  {
  }

  lemma RowsOfNonEmpty(rows: seq<Row>, c: string)
    requires c in CustomerIds(rows)
    ensures |RowsOf(rows, c)| > 0
  {
    var r :| r in rows && r.customerId == c;
    assert r in RowsOf(rows, c);
  }

  lemma {:induction false} RowsOfAbsent(rows: seq<Row>, c: string)
    requires c !in CustomerIds(rows)
    ensures RowsOf(rows, c) == []
    decreases |rows|
  {
    if |rows| > 0 {
      ConsSets(rows);
      RowsOfAbsent(rows[1..], c);
    }
  }

  /** Frequency: the number of distinct orders of customer `c`. */
  function Frequency(rows: seq<Row>, c: string): (orders: nat) {
    |OrderIds(RowsOf(rows, c))|
  }

  /** Monetary: the sum of the prices of all of customer `c`'s rows. */
  function Monetary(rows: seq<Row>, c: string): (spent: int) {
    TotalPrice(RowsOf(rows, c))
  }

  /** The date of customer `c`'s latest purchase. */
  function LastPurchaseDate(rows: seq<Row>, c: string): (d: int)
    requires c in CustomerIds(rows)
  {
    RowsOfNonEmpty(rows, c);
    LatestDate(RowsOf(rows, c))
  }

  /** Recency: whole days from `c`'s latest purchase date to the latest
      purchase date of the whole input. */
  function Recency(rows: seq<Row>, c: string): (days: int)
    requires c in CustomerIds(rows)
  {
    LatestDate(rows) - LastPurchaseDate(rows, c)
  }

  /** No customer's last purchase is later than the reference date. */
  lemma RecencyNonNegative(rows: seq<Row>, c: string)
    requires c in CustomerIds(rows)
    ensures Recency(rows, c) >= 0
  {
    RowsOfNonEmpty(rows, c);
    var mine := RowsOf(rows, c);
    var r :| r in mine && r.purchasedAt.day == LatestDate(mine);
    assert r in rows;
  }

  /** The owner of the latest purchase of the input has recency 0. */
  lemma SomeRecencyZero(rows: seq<Row>)
    requires |rows| > 0
    ensures exists c :: c in CustomerIds(rows) && Recency(rows, c) == 0
  {
    var d := LatestDate(rows);
    var r :| r in rows && r.purchasedAt.day == d;
    var c := r.customerId;
    assert c in CustomerIds(rows);
    assert r in RowsOf(rows, c);
    RecencyNonNegative(rows, c);
    assert Recency(rows, c) == 0;
  }

  /** A customer's recency is 0 exactly when one of the customer's purchases
      falls on the latest purchase date of the whole input. */
  lemma RecencyZeroIff(rows: seq<Row>, c: string)
    requires c in CustomerIds(rows)
    ensures Recency(rows, c) == 0 <==>
      exists r :: r in rows && r.customerId == c && r.purchasedAt.day == LatestDate(rows)
  {
    RowsOfNonEmpty(rows, c);
    var mine := RowsOf(rows, c);
    RecencyNonNegative(rows, c);
    if Recency(rows, c) == 0 {
      var r :| r in mine && r.purchasedAt.day == LatestDate(mine);
      assert r in rows && r.customerId == c;
    }
    if exists r :: r in rows && r.customerId == c && r.purchasedAt.day == LatestDate(rows) {
      var r :| r in rows && r.customerId == c && r.purchasedAt.day == LatestDate(rows);
      assert r in mine;
    }
  }

  /** A customer who appears has at least one order. */
  lemma FrequencyPositive(rows: seq<Row>, c: string)
    requires c in CustomerIds(rows)
    ensures Frequency(rows, c) >= 1
  {
    RowsOfNonEmpty(rows, c);
    var mine := RowsOf(rows, c);
    assert mine[0].orderId in OrderIds(mine);
  }

  lemma {:induction false} TotalPriceNonNegative(rows: seq<Row>)
    requires forall r :: r in rows ==> r.price >= 0
    ensures TotalPrice(rows) >= 0
    decreases |rows|
  {
    if |rows| > 0 {
      TotalPriceNonNegative(rows[1..]);
    }
  }

  /** With non-negative prices, every customer's monetary value is non-negative. */
  lemma MonetaryNonNegative(rows: seq<Row>, c: string)
    requires forall r :: r in rows ==> r.price >= 0
    ensures Monetary(rows, c) >= 0
  {
    TotalPriceNonNegative(RowsOf(rows, c));
  }

  /** Two rows that agree on everything except the time of day of the purchase. */
  predicate SameRowExceptTimeOfDay(x: Row, y: Row) {
    && x.customerId == y.customerId
    && x.orderId == y.orderId
    && x.price == y.price
    && x.purchasedAt.day == y.purchasedAt.day
  }

  /** Two tables that agree row by row on everything except the time of day
      of the purchase. */
  predicate SameExceptTimeOfDay(a: seq<Row>, b: seq<Row>) {
    |a| == |b| && forall i :: 0 <= i < |a| ==> SameRowExceptTimeOfDay(a[i], b[i])
  }

  lemma SameTail(a: seq<Row>, b: seq<Row>)
    requires SameExceptTimeOfDay(a, b) && |a| > 0
    ensures SameExceptTimeOfDay(a[1..], b[1..])
  {
    forall i | 0 <= i < |a| - 1 ensures SameRowExceptTimeOfDay(a[1..][i], b[1..][i]) {
      assert a[1..][i] == a[i + 1] && b[1..][i] == b[i + 1];
    }
  }

  lemma SameConcat(a: seq<Row>, b: seq<Row>, a': seq<Row>, b': seq<Row>)
    requires SameExceptTimeOfDay(a, b) && SameExceptTimeOfDay(a', b')
    ensures SameExceptTimeOfDay(a + a', b + b')
  {
    forall i | 0 <= i < |a + a'| ensures SameRowExceptTimeOfDay((a + a')[i], (b + b')[i]) {
      if i < |a| {
        assert (a + a')[i] == a[i] && (b + b')[i] == b[i];
      } else {
        assert (a + a')[i] == a'[i - |a|] && (b + b')[i] == b'[i - |a|];
      }
    }
  }

  lemma {:induction false} SameRowsOf(a: seq<Row>, b: seq<Row>, c: string)
    requires SameExceptTimeOfDay(a, b)
    ensures SameExceptTimeOfDay(RowsOf(a, c), RowsOf(b, c))
    decreases |a|
  {
    if |a| > 0 {
      SameTail(a, b);
      SameRowsOf(a[1..], b[1..], c);
      assert SameRowExceptTimeOfDay(a[0], b[0]);
      var ha: seq<Row> := if a[0].customerId == c then [a[0]] else [];
      var hb: seq<Row> := if b[0].customerId == c then [b[0]] else [];
      assert SameExceptTimeOfDay(ha, hb);
      SameConcat(ha, hb, RowsOf(a[1..], c), RowsOf(b[1..], c));
    }
  }

  /** Customers, orders and prices ignore the time of day. */
  lemma {:induction false} SameAggregates(a: seq<Row>, b: seq<Row>)
    requires SameExceptTimeOfDay(a, b)
    ensures CustomerIds(a) == CustomerIds(b)
    ensures OrderIds(a) == OrderIds(b)
    ensures TotalPrice(a) == TotalPrice(b)
    decreases |a|
  {
    if |a| > 0 {
      SameTail(a, b);
      SameAggregates(a[1..], b[1..]);
      assert SameRowExceptTimeOfDay(a[0], b[0]);
      ConsSets(a);
      ConsSets(b);
    }
  }

  /** The latest purchase date ignores the time of day. */
  lemma {:induction false} SameLatestDate(a: seq<Row>, b: seq<Row>)
    requires SameExceptTimeOfDay(a, b) && |a| > 0
    ensures LatestDate(a) == LatestDate(b)
    decreases |a|
  {
    assert SameRowExceptTimeOfDay(a[0], b[0]);
    if |a| > 1 {
      SameTail(a, b);
      SameLatestDate(a[1..], b[1..]);
    }
  }

  /** How the sets of customers and orders grow by one row at the front. */
  lemma ConsSets(rows: seq<Row>)
    requires |rows| > 0
    ensures CustomerIds(rows) == {rows[0].customerId} + CustomerIds(rows[1..])
    ensures OrderIds(rows) == {rows[0].orderId} + OrderIds(rows[1..])
  {
    assert rows == [rows[0]] + rows[1..];
  }
}
