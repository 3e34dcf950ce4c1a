/** `create_rfm_df`: group the order lines by customer, aggregate each group
    (latest timestamp, distinct orders, summed price) and turn the latest
    timestamp into a recency in days against the latest purchase date of the
    whole input. */
module Rfm {
  import opened Orders
  import opened StringOrder
  import opened RfmSpec

  datatype Option<T> = None | Some(value: T)

  /** One group of the `groupby` with its running aggregates: the latest
      purchase timestamp (`max`), the set of orders seen (whose size is
      `nunique`) and the summed price (`sum`). */
  datatype Group = Group(customerId: string, lastPurchase: Timestamp, orderIds: set<string>, monetary: int)

  /** One output row, columns in the order the frame ends with: the renamed
      aggregate columns, then the added `recency`. */
  datatype CustomerRfm = CustomerRfm(customerId: string, frequency: nat, monetary: int, recency: int)

  /** The group a customer's first row opens. */
  function NewGroup(r: Row): (g: Group) {
    Group(r.customerId, r.purchasedAt, {r.orderId}, r.price)
  }

  /** A group after one more of its customer's rows. */
  function Absorb(g: Group, r: Row): (merged: Group)
    requires g.customerId == r.customerId
  {
    Group(g.customerId, Later(r.purchasedAt, g.lastPurchase), g.orderIds + {r.orderId}, r.price + g.monetary)
  }

  /** The group keys, in order. */
  function Keys(gs: seq<Group>): (keys: seq<string>) {
    seq(|gs|, i requires 0 <= i < |gs| => gs[i].customerId)
  }

  /** Group keys strictly ascending, as pandas sorts them: `StrictlyAscending`
      of `Keys(gs)`, spelled out on the groups themselves so that proofs about
      `AddRow` need not go through `Keys` (`AscendingKeys` relates the two). */
  predicate Ascending(gs: seq<Group>) {
    forall i, j :: 0 <= i < j < |gs| ==> Less(gs[i].customerId, gs[j].customerId)
  }

  lemma AscendingKeys(gs: seq<Group>)
    ensures |Keys(gs)| == |gs|
    ensures Ascending(gs) <==> StrictlyAscending(Keys(gs))
  {
    var ks := Keys(gs);
    if Ascending(gs) {
      forall i, j | 0 <= i < j < |ks| ensures Less(ks[i], ks[j]) {
        assert ks[i] == gs[i].customerId && ks[j] == gs[j].customerId;
      }
    }
    if StrictlyAscending(ks) {
      forall i, j | 0 <= i < j < |gs| ensures Less(gs[i].customerId, gs[j].customerId) {
        assert ks[i] == gs[i].customerId && ks[j] == gs[j].customerId;
      }
    }
  }

  /** Every key is above `lo`. */
  predicate Above(gs: seq<Group>, lo: string) {
    forall i :: 0 <= i < |gs| ==> Less(lo, gs[i].customerId)
  }

  /** The group of customer `c`, if there is one. */
  function Find(gs: seq<Group>, c: string): (found: Option<Group>)
    ensures found.Some? ==> found.value in gs && found.value.customerId == c
    ensures found.None? ==> forall g :: g in gs ==> g.customerId != c
    decreases |gs|
  {
    if |gs| == 0 then None
    else if gs[0].customerId == c then Some(gs[0])
    else Find(gs[1..], c)
  }

  /** Feeds one row into the key-sorted groups: merges it into its
      customer's group, or opens a new group at the key's place. */
  function AddRow(gs: seq<Group>, r: Row): (res: seq<Group>)
    decreases |gs|
  {
    if |gs| == 0 then [NewGroup(r)]
    else if gs[0].customerId == r.customerId then [Absorb(gs[0], r)] + gs[1..]
    else if Less(r.customerId, gs[0].customerId) then [NewGroup(r)] + gs
    else [gs[0]] + AddRow(gs[1..], r)
  }

  /** `df.groupby(by="customer_id").agg(...)`: one group per customer, keys
      ascending. */
  function GroupBy(rows: seq<Row>): (groups: seq<Group>)
    decreases |rows|
  {
    if |rows| == 0 then [] else AddRow(GroupBy(rows[1..]), rows[0])
  }

  /** One output row of a group, given the reference date `recentDate`:
      `frequency` is the number of distinct orders, and `recency` is the days
      from the group's latest purchase date (`.dt.date`) to the reference date. */
  function ToRfm(g: Group, recentDate: int): (e: CustomerRfm) {
    CustomerRfm(g.customerId, |g.orderIds|, g.monetary, recentDate - g.lastPurchase.day)
  }

  /** `create_rfm_df(df)`. Without rows there are no groups and the table is
      empty; the reference date (`recent_date`) is then never used. */
  function CreateRfm(rows: seq<Row>): (table: seq<CustomerRfm>) {
    var groups := GroupBy(rows);
    if |rows| == 0 then []
    else
      var recentDate := LatestDate(rows);
      seq(|groups|, i requires 0 <= i < |groups| => ToRfm(groups[i], recentDate))
  }

  /** The `customer_id` column of the output. */
  function Ids(table: seq<CustomerRfm>): (ids: seq<string>) {
    seq(|table|, i requires 0 <= i < |table| => table[i].customerId)
  }

  // ---------------------------------------------------------------------
  // The grouping is correct against the reference definitions.

  /** The group the reference definitions give customer `c`. */
  function SpecGroup(rows: seq<Row>, c: string): (g: Group)
    requires c in CustomerIds(rows)
  {
    RowsOfNonEmpty(rows, c);
    var mine := RowsOf(rows, c);
    Group(c, LatestTimestamp(mine), OrderIds(mine), TotalPrice(mine))
  }

  /** The output row the reference definitions give customer `c`. */
  function Expected(rows: seq<Row>, c: string): (e: CustomerRfm)
    requires c in CustomerIds(rows)
  {
    CustomerRfm(c, Frequency(rows, c), Monetary(rows, c), Recency(rows, c))
  }

  lemma AscendingCons(g: Group, gs: seq<Group>)
    requires Above(gs, g.customerId) && Ascending(gs)
    ensures Ascending([g] + gs)
  {
    forall i, j | 0 <= i < j < |gs| + 1
      ensures Less(([g] + gs)[i].customerId, ([g] + gs)[j].customerId)
    {
      if i == 0 {
        assert ([g] + gs)[j] == gs[j - 1];
      } else {
        assert ([g] + gs)[i] == gs[i - 1] && ([g] + gs)[j] == gs[j - 1];
      }
    }
  }

  lemma AboveFindNone(gs: seq<Group>, lo: string)
    requires Above(gs, lo)
    ensures Find(gs, lo) == None
  {
    LessIrreflexive(lo);
  }

  lemma {:induction false} AddRowAbove(gs: seq<Group>, r: Row, lo: string)
    requires Ascending(gs) && Above(gs, lo) && Less(lo, r.customerId)
    ensures Above(AddRow(gs, r), lo)
    decreases |gs|
  {
    if |gs| > 0 && gs[0].customerId != r.customerId && !Less(r.customerId, gs[0].customerId) {
      AddRowAbove(gs[1..], r, lo);
    }
  }

  /** Adding a row keeps the keys strictly ascending. */
  lemma {:induction false} AddRowAscending(gs: seq<Group>, r: Row)
    requires Ascending(gs)
    ensures Ascending(AddRow(gs, r))
    decreases |gs|
  {
    if |gs| == 0 {
    } else if gs[0].customerId == r.customerId {
      var res := AddRow(gs, r);
      assert forall i :: 0 <= i < |gs| ==> res[i].customerId == gs[i].customerId;
    } else if Less(r.customerId, gs[0].customerId) {
      forall i | 0 <= i < |gs| ensures Less(r.customerId, gs[i].customerId) {
        if i > 0 {
          LessTransitive(r.customerId, gs[0].customerId, gs[i].customerId);
        }
      }
      AscendingCons(NewGroup(r), gs);
    } else {
      LessTotal(r.customerId, gs[0].customerId);
      AddRowAscending(gs[1..], r);
      assert Above(gs[1..], gs[0].customerId);
      AddRowAbove(gs[1..], r, gs[0].customerId);
      AscendingCons(gs[0], AddRow(gs[1..], r));
    }
  }

  /** Adding a row changes exactly its customer's group: it is opened, or the
      row is merged into it. */
  lemma {:induction false} AddRowFind(gs: seq<Group>, r: Row, c: string)
    requires Ascending(gs)
    ensures Find(AddRow(gs, r), c) ==
      if c != r.customerId then Find(gs, c)
      else if Find(gs, c).Some? then Some(Absorb(Find(gs, c).value, r))
      else Some(NewGroup(r))
    decreases |gs|
  {
    if |gs| == 0 {
    } else if gs[0].customerId == r.customerId {
      assert AddRow(gs, r)[1..] == gs[1..];
    } else if Less(r.customerId, gs[0].customerId) {
      assert AddRow(gs, r)[1..] == gs;
      if c == r.customerId {
        forall i | 0 <= i < |gs| ensures Less(r.customerId, gs[i].customerId) {
          if i > 0 {
            LessTransitive(r.customerId, gs[0].customerId, gs[i].customerId);
          }
        }
        AboveFindNone(gs, c);
      }
    } else {
      assert AddRow(gs, r)[1..] == AddRow(gs[1..], r);
      AddRowFind(gs[1..], r, c);
    }
  }

  /** A row at the front leaves the other customers' reference groups alone. */
  lemma SpecGroupConsOther(rows: seq<Row>, c: string)
    requires |rows| > 0 && c != rows[0].customerId
    ensures c in CustomerIds(rows) <==> c in CustomerIds(rows[1..])
    ensures c in CustomerIds(rows[1..]) ==> SpecGroup(rows, c) == SpecGroup(rows[1..], c)
  {
    ConsSets(rows);
    assert RowsOf(rows, c) == RowsOf(rows[1..], c);
  }

  /** The aggregates of rows with one more row at the front. */
  lemma ConsAggregates(r: Row, mine: seq<Row>)
    ensures OrderIds([r] + mine) == OrderIds(mine) + {r.orderId}
    ensures TotalPrice([r] + mine) == r.price + TotalPrice(mine)
    ensures |mine| > 0 ==> LatestTimestamp([r] + mine) == Later(r.purchasedAt, LatestTimestamp(mine))
    ensures |mine| == 0 ==> LatestTimestamp([r] + mine) == r.purchasedAt
  {
    assert ([r] + mine)[0] == r && ([r] + mine)[1..] == mine;
    ConsSets([r] + mine);
  }

  /** A row at the front is merged into its customer's reference group. */
  lemma SpecGroupConsMerge(rows: seq<Row>)
    requires |rows| > 0 && rows[0].customerId in CustomerIds(rows[1..])
    ensures rows[0].customerId in CustomerIds(rows)
    ensures SpecGroup(rows, rows[0].customerId) ==
      Absorb(SpecGroup(rows[1..], rows[0].customerId), rows[0])
  {
    var r, tail, c := rows[0], rows[1..], rows[0].customerId;
    ConsSets(rows);
    RowsOfNonEmpty(tail, c);
    var mine := RowsOf(tail, c);
    var full := RowsOf(rows, c);
    assert full == [r] + mine;
    ConsAggregates(r, mine);
    assert SpecGroup(tail, c) == Group(c, LatestTimestamp(mine), OrderIds(mine), TotalPrice(mine));
    assert SpecGroup(rows, c) == Group(c, LatestTimestamp(full), OrderIds(full), TotalPrice(full));
  }

  /** A customer's first row opens the customer's reference group. */
  lemma SpecGroupConsNew(rows: seq<Row>)
    requires |rows| > 0 && rows[0].customerId !in CustomerIds(rows[1..])
    ensures rows[0].customerId in CustomerIds(rows)
    ensures SpecGroup(rows, rows[0].customerId) == NewGroup(rows[0])
  {
    var r, tail := rows[0], rows[1..];
    ConsSets(rows);
    RowsOfAbsent(tail, r.customerId);
    assert RowsOf(rows, r.customerId) == [r];
    ConsAggregates(r, []);
    assert OrderIds([]) == {};
  }

  /** The groups are the reference groups, one per customer of the input. */
  lemma {:induction false} GroupByFind(rows: seq<Row>, c: string)
    ensures Find(GroupBy(rows), c) ==
      if c in CustomerIds(rows) then Some(SpecGroup(rows, c)) else None
    decreases |rows|
  {
    if |rows| > 0 {
      GroupByFind(rows[1..], c);
      GroupByAscending(rows[1..]);
      AddRowFind(GroupBy(rows[1..]), rows[0], c);
      if c == rows[0].customerId && c in CustomerIds(rows[1..]) {
        SpecGroupConsMerge(rows);
      } else if c == rows[0].customerId {
        SpecGroupConsNew(rows);
      } else {
        SpecGroupConsOther(rows, c);
      }
    }
  }

  lemma {:induction false} GroupByAscending(rows: seq<Row>)
    ensures Ascending(GroupBy(rows))
    decreases |rows|
  {
    if |rows| > 0 {
      GroupByAscending(rows[1..]);
      AddRowAscending(GroupBy(rows[1..]), rows[0]);
    }
  }

  lemma FindAt(gs: seq<Group>, i: nat)
    requires Ascending(gs) && i < |gs|
    ensures Find(gs, gs[i].customerId) == Some(gs[i])
  {
    var f := Find(gs, gs[i].customerId);
    var j :| 0 <= j < |gs| && gs[j] == f.value;
    if j != i {
      LessIrreflexive(gs[i].customerId);
    }
  }

  /** Each output row is the reference row of its customer. */
  lemma TableEntry(rows: seq<Row>, i: nat)
    requires |rows| > 0 && i < |GroupBy(rows)|
    ensures |CreateRfm(rows)| == |GroupBy(rows)|
    ensures CreateRfm(rows)[i].customerId == GroupBy(rows)[i].customerId
    ensures GroupBy(rows)[i].customerId in CustomerIds(rows)
    ensures CreateRfm(rows)[i] == Expected(rows, GroupBy(rows)[i].customerId)
  {
    var gs := GroupBy(rows);
    var c := gs[i].customerId;
    GroupByAscending(rows);
    FindAt(gs, i);
    GroupByFind(rows, c);
    RowsOfNonEmpty(rows, c);
    DateOfLatestTimestamp(RowsOf(rows, c));
  }

  /** The output keys are the group keys. */
  lemma IdsAreGroupKeys(rows: seq<Row>)
    ensures |Ids(CreateRfm(rows))| == |GroupBy(rows)|
    ensures forall i :: 0 <= i < |GroupBy(rows)| ==> Ids(CreateRfm(rows))[i] == GroupBy(rows)[i].customerId
    ensures Ids(CreateRfm(rows)) == Keys(GroupBy(rows))
  {
  }

  /** The key column of the groups is strictly ascending. */
  lemma GroupKeysAscending(rows: seq<Row>)
    ensures StrictlyAscending(Keys(GroupBy(rows)))
  {
    GroupByAscending(rows);
    AscendingKeys(GroupBy(rows));
  }

  /** Every customer of the input has an output row. */
  lemma EveryCustomerHasRow(rows: seq<Row>, c: string)
    requires c in CustomerIds(rows)
    ensures c in Elements(Ids(CreateRfm(rows)))
  {
    var gs := GroupBy(rows);
    GroupByFind(rows, c);
    var i :| 0 <= i < |gs| && gs[i] == Find(gs, c).value;
    IdsAreGroupKeys(rows);
    assert Ids(CreateRfm(rows))[i] == c;
  }

  /** `create_rfm_df` computes, for exactly the customers of the input and in
      ascending key order, the reference recency, frequency and monetary. */
  lemma CreateRfmMeetsSpec(rows: seq<Row>)
    ensures StrictlyAscending(Ids(CreateRfm(rows)))
    ensures Elements(Ids(CreateRfm(rows))) == CustomerIds(rows)
    ensures forall e :: e in CreateRfm(rows) ==>
      e.customerId in CustomerIds(rows) && e == Expected(rows, e.customerId)
  {
    var gs := GroupBy(rows);
    var table := CreateRfm(rows);
    GroupKeysAscending(rows);
    IdsAreGroupKeys(rows);
    if |rows| > 0 {
      forall i | 0 <= i < |gs|
        ensures gs[i].customerId in CustomerIds(rows) && table[i] == Expected(rows, gs[i].customerId)
      {
        TableEntry(rows, i);
      }
    }
    forall c | c in CustomerIds(rows) ensures c in Elements(Ids(table)) {
      EveryCustomerHasRow(rows, c);
    }
  }

  /** Exactly one output row per distinct customer of the input. */
  lemma RowPerCustomer(rows: seq<Row>)
    ensures |CreateRfm(rows)| == |CustomerIds(rows)|
  {
    CreateRfmMeetsSpec(rows);
    AscendingCount(Ids(CreateRfm(rows)));
  }
}
