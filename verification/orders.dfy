/** The order-line table the dashboard aggregates: one row per order item,
    carrying the customer, the order, the purchase timestamp and the price. */
module Orders {

  const SecondsPerDay: int := 86400

  type SecondOfDay = s: int | 0 <= s < SecondsPerDay

  /** A purchase timestamp: a calendar day (days since an epoch) and the
      second within that day. pandas' `.dt.date` is the projection to `day`. */
  datatype Timestamp = Timestamp(day: int, secondOfDay: SecondOfDay)

  /** `a <= b` on timestamps: chronological order. */
  predicate NotAfter(a: Timestamp, b: Timestamp) {
    a.day < b.day || (a.day == b.day && a.secondOfDay <= b.secondOfDay)
  }

  /** The later of two timestamps (pandas' `max` of two values). */
  function Later(a: Timestamp, b: Timestamp): (m: Timestamp)
    ensures m == a || m == b
    ensures NotAfter(a, m) && NotAfter(b, m)
    ensures m.day == if a.day <= b.day then b.day else a.day
  {
    if NotAfter(a, b) then b else a
  }

  /** The timestamp a bare date string such as "2018-01-15" compares as:
      the midnight that starts the day. */
  function Midnight(day: int): (t: Timestamp)
    ensures t.day == day
    ensures forall u: Timestamp :: u.day == day ==> NotAfter(t, u)
  {
    Timestamp(day, 0)
  }

  /** One order line: `customer_id`, `order_id`, `order_purchase_timestamp`
      and `price` (in cents). */
  datatype Row = Row(customerId: string, orderId: string, purchasedAt: Timestamp, price: int)
}
