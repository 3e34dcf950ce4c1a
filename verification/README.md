# RFM customer aggregation of the e-commerce dashboard, in Dafny

The dashboard's one piece of real computation is `create_rfm_df`. It turns
the order-line table (one row per order item: customer, order, purchase
timestamp, price) into one row per customer with three values:

- **recency**: whole days from the customer's latest purchase date to the
  latest purchase date of the whole input. Both sides are calendar dates,
  with the time of day discarded.
- **frequency**: the number of distinct orders of the customer.
- **monetary**: the sum of the prices of all of the customer's line items.

This project models that function. It also models the date-window filter
that feeds it and `wrapped_customer_id`, the helper that formats customer ids
as chart labels. Everything is pure, as in the source, and is modelled as
datatypes, functions and lemmas.

Modules:

- `Orders` (`orders.dfy`): timestamps as `(day, secondOfDay)`. pandas'
  `.dt.date` is projection to `day`. Also the order-line `Row`, with prices
  in integer cents.
- `StringOrder` (`string_order.dfy`): Python's `<` on `str`, which pandas
  uses to sort `groupby` keys. It is proved to be a strict total order, and a
  strictly ascending sequence is proved to be fixed by its set of elements.
- `RfmSpec` (`rfm_spec.dfy`): reference definitions for one customer, stated
  directly over the rows. These are the customer's rows, the set of their
  order ids, the sum of their prices, and their latest timestamp and date.
  This module also holds the per-customer bounds and the time-of-day lemmas.
- `Rfm` (`rfm.dfy`): the aggregation itself. `GroupBy` feeds each row into a
  key-sorted list of groups. Each group keeps a running `max` timestamp, the
  set of order ids seen (its size is `nunique`) and the running price `sum`.
  `CreateRfm` then turns each group into an output row against the reference
  date `LatestDate(rows)` (`recent_date`). `CreateRfmMeetsSpec` is the main
  theorem. The output ids are strictly ascending and are exactly the input's
  customers. Every output row equals the reference row of its customer.
- `RfmProperties` (`rfm_properties.dfy`): properties of the whole table.
  These are the column bounds, a customer with recency 0, monetary
  conservation, insensitivity to the time of day and a worked example.
- `DateWindow` (`date_window.dfy`): the mask at line 208 and its effect on
  the RFM table.
- `WrappedCustomerId` (`wrapped_customer_id.dfy`): the slice comprehension
  and `'\n'.join` of lines 12-13.

Four readings follow the code rather than the usual description of an RFM dashboard:

- Output rows are in ascending `customer_id` order, because `groupby` sorts
  its keys by default. First-seen order is not used.
- The reference date for recency is not a parameter. It is the latest
  purchase date of the rows passed in (line 25).
- The window filter is not a whole-day inclusive range. It compares each
  timestamp with the midnight of `start_date` and of `end_date`, so a
  purchase made after 00:00:00 on the end date is dropped
  (`DateWindow.InWindowByDate`, `DateWindow.WindowExample`).
- For empty input the model returns the empty table. Grouping no rows gives
  no groups, so no recency is computed and the undefined reference date is
  never used.

## Model

| member | source | states |
|---|---|---|
| `Rfm.CreateRfm` | dashboard/dashboard.py:16-29 | `create_rfm_df` itself: group, aggregate, then recency against `recent_date`; its contract is `Rfm.CreateRfmMeetsSpec`, `Rfm.RowPerCustomer` and the `RfmProperties` lemmas |
| `Rfm.GroupBy` | dashboard/dashboard.py:17-21 | the `groupby` with its `max` / `nunique` / `sum` aggregates; see `Rfm.GroupByFind`, `Rfm.GroupByAscending`, `RfmProperties.GroupByTotal` |
| `Rfm.AddRow` | dashboard/dashboard.py:17-21 | one row fed into the key-sorted groups; see `Rfm.AddRowFind`, `Rfm.AddRowAscending`, `RfmProperties.AddRowTotal` |
| `Rfm.NewGroup` | dashboard/dashboard.py:17-21 | the aggregates of a customer's first row; see `Rfm.SpecGroupConsNew` |
| `Rfm.Absorb` | dashboard/dashboard.py:18-20 | one more row merged by `max`, order-id union and `sum`; see `Rfm.SpecGroupConsMerge` |
| `Rfm.ToRfm` | dashboard/dashboard.py:22-26 | one group as an output row: frequency = number of distinct orders, recency = `(recent_date - date of latest purchase).days`; see `Rfm.TableEntry` |
| `Rfm.AscendingKeys` | dashboard/dashboard.py:17 | the groups are in ascending key order exactly when their key column is strictly ascending in the string order |
| `Rfm.GroupKeysAscending` | dashboard/dashboard.py:17 | the key column of the groups is strictly ascending in the string order |
| `Rfm.IdsAreGroupKeys` | dashboard/dashboard.py:17-22 | the output `customer_id` column is the key column of the groups |
| `Rfm.CreateRfmMeetsSpec` | dashboard/dashboard.py:16-29 | the output ids are strictly ascending and are exactly the input's customers; every output row has frequency = distinct orders, monetary = summed prices, recency = latest date of the input minus the customer's latest date |
| `Rfm.RowPerCustomer` | dashboard/dashboard.py:17-22 | the table has exactly as many rows as the input has distinct customers |
| `Rfm.TableEntry` | dashboard/dashboard.py:22-26 | the i-th output row carries the i-th group's key and equals that customer's reference row |
| `Rfm.EveryCustomerHasRow` | dashboard/dashboard.py:17-21 | every customer of the input gets an output row |
| `Rfm.GroupByFind` | dashboard/dashboard.py:17-21 | the group of a customer is there exactly when the customer has rows, and it holds the reference latest timestamp, order-id set and price sum |
| `Rfm.GroupByAscending` | dashboard/dashboard.py:17 | group keys are strictly ascending (pandas' default key sort) |
| `Rfm.AddRowFind` | dashboard/dashboard.py:17-21 | one more row opens its customer's group or is merged into it (max timestamp, order-id union, price sum), and no other group changes |
| `Rfm.AddRowAscending` | dashboard/dashboard.py:17 | adding a row keeps the keys strictly ascending |
| `Rfm.AddRowAbove` | dashboard/dashboard.py:17 | adding a row whose key is above a bound keeps every key above it |
| `Rfm.FindAt` | dashboard/dashboard.py:17 | with ascending keys, looking up a group's key finds that very group |
| `Rfm.SpecGroupConsMerge` | dashboard/dashboard.py:18-20 | a row at the front of a customer who already has rows is merged into that customer's reference group by max, order-id union and sum |
| `Rfm.SpecGroupConsNew` | dashboard/dashboard.py:18-20 | a customer's only row makes a reference group of its own timestamp, its one order and its price |
| `Rfm.ConsAggregates` | dashboard/dashboard.py:18-20 | one more row adds its order id to the distinct orders and its price to the sum, and moves the latest timestamp to the later of the two |
| `Rfm.SpecGroupConsOther` | dashboard/dashboard.py:17-20 | a row at the front leaves other customers' reference groups unchanged |
| `RfmSpec.RowsOf` | dashboard/dashboard.py:17 | a customer's group holds exactly the input rows with that customer id |
| `RfmSpec.RowsOfCounts` | dashboard/dashboard.py:17 | a customer's group keeps each of its rows as many times as it occurs in the input; repeated line items are not deduplicated |
| `RfmSpec.LatestTimestamp` | dashboard/dashboard.py:18 | the latest purchase timestamp is one of the rows' and no row's is later |
| `RfmSpec.LatestDate` | dashboard/dashboard.py:25 | `recent_date` is one of the rows' dates and no row's date is later |
| `RfmSpec.DateOfLatestTimestamp` | dashboard/dashboard.py:24-25 | the date of the latest timestamp equals the latest of the dates |
| `RfmSpec.RecencyNonNegative` | dashboard/dashboard.py:25-26 | every customer's recency is at least 0 |
| `RfmSpec.RecencyZeroIff` | dashboard/dashboard.py:24-26 | a customer's recency is 0 exactly when one of the customer's purchases falls on `recent_date` |
| `RfmSpec.SomeRecencyZero` | dashboard/dashboard.py:25-26 | for non-empty input some customer has recency 0 |
| `RfmSpec.FrequencyPositive` | dashboard/dashboard.py:19 | a customer who appears has at least one distinct order |
| `RfmSpec.TotalPriceNonNegative` | dashboard/dashboard.py:20 | the sum of non-negative prices is non-negative |
| `RfmSpec.MonetaryNonNegative` | dashboard/dashboard.py:20 | with non-negative prices every monetary value is non-negative |
| `RfmSpec.SameRowsOf` | dashboard/dashboard.py:17 | changing only times of day changes no customer's selection of rows except in those times |
| `RfmSpec.SameAggregates` | dashboard/dashboard.py:17-20 | customers, distinct orders and price sums do not depend on the time of day |
| `RfmSpec.SameLatestDate` | dashboard/dashboard.py:24-25 | the latest purchase date does not depend on the time of day |
| `RfmProperties.RecencyAndFrequencyBounds` | dashboard/dashboard.py:19-26 | every output row has recency >= 0 and frequency >= 1 |
| `RfmProperties.MonetaryBound` | dashboard/dashboard.py:20 | with non-negative prices every output monetary is >= 0 |
| `RfmProperties.RecencyZeroIffLatest` | dashboard/dashboard.py:24-26 | an output row has recency 0 exactly when one of its customer's purchases falls on the latest purchase date of the input |
| `RfmProperties.SomeRowRecencyZero` | dashboard/dashboard.py:24-26 | the customer of any purchase on the latest date has an output row, and its recency is 0 |
| `RfmProperties.AddRowTotal` | dashboard/dashboard.py:20 | one more row adds its price to the groups' total exactly once |
| `RfmProperties.GroupByTotal` | dashboard/dashboard.py:20 | the groups' monetary values add up to the total price of the input |
| `RfmProperties.MonetaryConserved` | dashboard/dashboard.py:20 | the monetary column adds up to the total price of all line items, so no item is lost or counted twice |
| `RfmProperties.SameExpected` | dashboard/dashboard.py:24-26 | a customer's reference row does not depend on the time of day |
| `RfmProperties.TimeOfDayIrrelevant` | dashboard/dashboard.py:24-25 | changing the time of day of any rows without changing their dates leaves the whole table unchanged |
| `RfmProperties.WorkedExample` | dashboard/dashboard.py:16-29 | rows (C1,O1,Jan 1,10.00), (C1,O1,Jan 1,5.00), (C1,O2,Jan 10,20.00), (C2,O3,Jan 15,8.00) give C1 = (frequency 2, monetary 35.00, recency 5) and C2 = (1, 8.00, 0) |
| `RfmProperties.ExampleGroups` | dashboard/dashboard.py:17-21 | the worked example's groups: C1 with latest Jan 10, orders {O1, O2}, 35.00; C2 alone |
| `RfmProperties.ExampleLatestDate` | dashboard/dashboard.py:25 | the worked example's reference date is Jan 15 |
| `Orders.Later` | dashboard/dashboard.py:18 | the later of two timestamps is one of them, not before either, and its date is the later date |
| `Orders.Midnight` | dashboard/dashboard.py:208 | a bare date compares as the first instant of its day |
| `DateWindow.InWindow` | dashboard/dashboard.py:208 | the boolean mask `start_date <= timestamp <= end_date` with both dates read as midnights; see `DateWindow.InWindowByDate` |
| `DateWindow.FilterWindow` | dashboard/dashboard.py:208 | exactly the rows with start-midnight <= timestamp <= end-midnight are kept |
| `DateWindow.FilterWindowCounts` | dashboard/dashboard.py:208-210 | each row in the window is kept as many times as it occurs in the input; every other row is dropped entirely |
| `DateWindow.InWindowByDate` | dashboard/dashboard.py:208 | a timestamp is kept iff its date is on or after the start date and it is before the end date or exactly its midnight |
| `DateWindow.WindowedCustomers` | dashboard/dashboard.py:208-210 | after filtering, a customer has an RFM row iff one of their purchases is in the window, so a filtered-out customer is absent and never a zero row |
| `DateWindow.WindowExample` | dashboard/dashboard.py:208-210 | filtering the worked example to Jan 1 .. Jan 10 drops C1's purchase at 13:53 on Jan 10 and C2 entirely, leaving C1 = (1, 15.00, 0) |
| `WrappedCustomerId.Wrapped` | dashboard/dashboard.py:9-14 | `wrapped_customer_id` itself: its lines are the chunks of the id; see `WrappedCustomerId.LinesOfWrapped`, `WrappedCustomerId.UnwrapWrapped`, `WrappedCustomerId.ShortIdUnchanged`, `WrappedCustomerId.WrappedEmpty` |
| `WrappedCustomerId.Chunks` | dashboard/dashboard.py:12 | the slices of 8 characters; see `WrappedCustomerId.ChunkShape`, `WrappedCustomerId.ConcatChunks` |
| `WrappedCustomerId.Join` | dashboard/dashboard.py:13 | `'\n'.join`: the separator stands exactly between consecutive parts; see `WrappedCustomerId.SplitJoin`, `WrappedCustomerId.WithoutJoin` |
| `WrappedCustomerId.PySlice` | dashboard/dashboard.py:12 | Python slicing: clamped length, and the characters are the source's from the start index |
| `WrappedCustomerId.ChunkShape` | dashboard/dashboard.py:10-12 | there are ceil(n/8) chunks, each of 1 to 8 characters, all but the last exactly 8 |
| `WrappedCustomerId.ChunksCons` | dashboard/dashboard.py:12 | the chunks of an id longer than 8 are its first 8 characters followed by the chunks of the rest |
| `WrappedCustomerId.ShortChunks` | dashboard/dashboard.py:12 | an id of 1 to 8 characters is one chunk |
| `WrappedCustomerId.ConcatChunks` | dashboard/dashboard.py:12 | the chunks laid end to end give back the id |
| `WrappedCustomerId.WithoutJoin` | dashboard/dashboard.py:13 | deleting the separator from a join of separator-free parts gives their concatenation |
| `WrappedCustomerId.UnwrapWrapped` | dashboard/dashboard.py:9-14 | for an id without line breaks, deleting the line breaks from the label gives the id back |
| `WrappedCustomerId.Split` | dashboard/dashboard.py:13 | Python's `str.split` on one separator, the inverse of `'\n'.join` for separator-free parts: always at least one piece |
| `WrappedCustomerId.SplitPrefix` | dashboard/dashboard.py:13 | a separator-free prefix is glued to the first piece of what follows it |
| `WrappedCustomerId.SplitJoin` | dashboard/dashboard.py:13 | splitting a join of one or more separator-free parts gives the parts back |
| `WrappedCustomerId.ChunksSepFree` | dashboard/dashboard.py:12 | a chunk holds only characters of the id, so an id without line breaks has chunks without line breaks |
| `WrappedCustomerId.LinesOfWrapped` | dashboard/dashboard.py:9-14 | the `'\n'`-separated lines of the label of a non-empty id without line breaks are exactly its 8-character chunks, so with `ChunkShape` there are ceil(n/8) lines of 1 to 8 characters, all but the last exactly 8 |
| `WrappedCustomerId.WrappedEmpty` | dashboard/dashboard.py:9-14 | the empty id gives the empty label |
| `WrappedCustomerId.ShortIdUnchanged` | dashboard/dashboard.py:9-14 | an id of at most 8 characters is returned unchanged |
| `StringOrder.Less` | dashboard/dashboard.py:17 | Python's `<` on `str`, by which `groupby` sorts its keys; see the four lemmas below |
| `StringOrder.LessIrreflexive` | dashboard/dashboard.py:17 | no key sorts before itself |
| `StringOrder.LessAsymmetric` | dashboard/dashboard.py:17 | two keys never sort before each other |
| `StringOrder.LessTransitive` | dashboard/dashboard.py:17 | the key order is transitive |
| `StringOrder.LessTotal` | dashboard/dashboard.py:17 | any two different keys are ordered |
| `StringOrder.AscendingUnique` | dashboard/dashboard.py:17 | a strictly ascending key sequence is fixed by its set of keys |
| `StringOrder.AscendingCount` | dashboard/dashboard.py:17 | a strictly ascending key sequence has as many entries as distinct keys |

## Left out

- CSV loading, the sort by timestamp and datetime parsing (dashboard/dashboard.py:32-40) are file I/O and pandas parsing. Rows come in already parsed.
- The Streamlit sidebar, widgets, metrics and layout (lines 68-88, 202-206, 213-227) are UI. The date picker's `start_date` and `end_date` are parameters of the filter.
- The Matplotlib and seaborn plotting (lines 93-194, 229-257) is rendering. This includes the calls that apply `wrapped_customer_id` to tick labels.
- `format_currency` (lines 87, 226) is a foreign library call with locale formatting.
- The rounded averages (lines 218-222) and `price_to_qty` keyed by float prices (line 63) are floating-point numerics.
- The yearly `resample` (lines 46-55) depends on pandas calendar resampling and `strftime`.
- The category and state rankings (lines 57-65) are left out. This includes `top5_state_buyers` (line 61), whose per-state count is the same distinct-order count as frequency. They are sorted with `sort_values`, whose order among ties is unspecified, and the state columns are not part of the row model.
- Rows are assumed to have no missing values. pandas' handling of NaN / NaT is not modelled: `groupby` dropping rows whose `customer_id` is missing (line 17) while they still feed `recent_date` (line 25), and `max`, `nunique` and `sum` skipping missing timestamps, order ids and prices (lines 18-20), which would give frequency 0 or monetary 0 to a customer whose values are all missing.
- The top-5 selections of the RFM table for the bar charts (lines 233, 241, 249: `sort_values` by recency ascending, by frequency and by monetary descending, then `head(5)`) are left out. They are presentation post-processing of the table, and `sort_values` is not a stable sort, so the order among ties is unspecified.
- Prices are exact integers (cents), not floats, so float rounding in the monetary sums is not modelled.
- Timestamps have whole-second resolution. Sub-second parts are dropped, which cannot change a date or a comparison with midnight except at midnight itself.
- `num_columns` at dashboard/dashboard.py:11 is computed and never used. It equals `len // 8 + 1`, which is one more than the chunk count whenever the length is a multiple of 8. The model omits it. `WrappedCustomerId.ChunkShape` states the real chunk count.
- The model does not capture the column renaming, the in-place overwrite of `max_order_purchase_timestamp` and the `drop(..., inplace=True)` (lines 22, 24, 27). These are steps on a frame the function owns, and the model keeps only the final columns.
