/** The random draws the generator consumes, made explicit. Each flag is
    the outcome of one `random() < threshold` test; each choice is the
    index `random.choice` picked; each list length is one `randint`. */
module Draws {
  import opened Rows

  const NumDays := 75
  const MinOrdersPerDay := 10
  const MaxOrdersPerDay := 40
  const MinDetailsPerOrder := 1
  const MaxDetailsPerOrder := 4
  const MinUnitsPerDetail := 1
  const MaxUnitsPerDetail := 5

  /** Draws for one orderdetail: its cancel, mug-print and sticker-print
      flags, then one cancel flag per unit. */
  datatype DetailDraw = DetailDraw(cancelled: bool, mugPrint: bool, stickerPrint: bool,
                                   units: seq<bool>)

  /** Draws for one order: indices into Partners and OrderTypes, the
      cancel flag, then its details. */
  datatype OrderDraw = OrderDraw(partner: nat, orderType: nat, cancelled: bool,
                                 details: seq<DetailDraw>)

  /** The orders drawn for one day. */
  type DayDraw = seq<OrderDraw>

  /** `random.choice` only ever returns an element of its list. */
  predicate ChoicesInRange(o: OrderDraw) {
    o.partner < |Partners| && o.orderType < |OrderTypes|
  }

  predicate AllChoicesInRange(os: seq<OrderDraw>) {
    forall i :: 0 <= i < |os| ==> ChoicesInRange(os[i])
  }

  predicate DaysChoicesInRange(days: seq<DayDraw>) {
    forall d :: 0 <= d < |days| ==> AllChoicesInRange(days[d])
  }

  /** `randint(1, 5)` units per detail. */
  predicate DetailInBounds(d: DetailDraw) {
    MinUnitsPerDetail <= |d.units| <= MaxUnitsPerDetail
  }

  /** `randint(1, 4)` details per order, each in bounds. */
  predicate OrderInBounds(o: OrderDraw) {
    && ChoicesInRange(o)
    && MinDetailsPerOrder <= |o.details| <= MaxDetailsPerOrder
    && forall i :: 0 <= i < |o.details| ==> DetailInBounds(o.details[i])
  }

  /** `randint(10, 40)` orders per day, each in bounds. */
  predicate DayInBounds(os: DayDraw) {
    && MinOrdersPerDay <= |os| <= MaxOrdersPerDay
    && forall i :: 0 <= i < |os| ==> OrderInBounds(os[i])
  }

  /** Everything the seeded generator can draw: 75 days, each in bounds. */
  predicate WellFormed(days: seq<DayDraw>) {
    |days| == NumDays && forall d :: 0 <= d < |days| ==> DayInBounds(days[d])
  }

  lemma WellFormedChoices(days: seq<DayDraw>)
    requires forall d :: 0 <= d < |days| ==> DayInBounds(days[d])
    ensures DaysChoicesInRange(days)
  {
    forall d | 0 <= d < |days|
      ensures AllChoicesInRange(days[d])
    {
      assert DayInBounds(days[d]);
    }
  }

  /** Number of units drawn for a list of details. */
  function UnitsIn(ds: seq<DetailDraw>): nat {
    if |ds| == 0 then 0 else |ds[0].units| + UnitsIn(ds[1..])
  }

  /** Number of details drawn for a list of orders. */
  function DetailsIn(os: seq<OrderDraw>): nat {
    if |os| == 0 then 0 else |os[0].details| + DetailsIn(os[1..])
  }

  /** Number of units drawn for a list of orders. */
  function UnitsInOrders(os: seq<OrderDraw>): nat {
    if |os| == 0 then 0 else UnitsIn(os[0].details) + UnitsInOrders(os[1..])
  }

  /** Number of orders drawn on the days before `day`. */
  function OrdersBefore(days: seq<DayDraw>, day: nat): nat
    requires day <= |days|
  {
    if day == 0 then 0 else OrdersBefore(days, day - 1) + |days[day - 1]|
  }

  /** Number of details drawn on the days before `day`. */
  function DetailsBefore(days: seq<DayDraw>, day: nat): nat
    requires day <= |days|
  {
    if day == 0 then 0 else DetailsBefore(days, day - 1) + DetailsIn(days[day - 1])
  }

  /** Number of units drawn on the days before `day`. */
  function UnitsBefore(days: seq<DayDraw>, day: nat): nat
    requires day <= |days|
  {
    if day == 0 then 0 else UnitsBefore(days, day - 1) + UnitsInOrders(days[day - 1])
  }

  /** The details drawn for a list of orders, in draw order: the i-th
      orderdetail the order loop inserts is drawn as the i-th of these. */
  function AllDetails(os: seq<OrderDraw>): (ds: seq<DetailDraw>)
    ensures |ds| == DetailsIn(os)
  {
    if |os| == 0 then [] else os[0].details + AllDetails(os[1..])
  }

  /** The orders drawn on days `day` onwards, in draw order. */
  function OrdersFrom(days: seq<DayDraw>, day: nat): (os: seq<OrderDraw>)
    requires day <= |days|
    ensures |os| == OrdersBefore(days, |days|) - OrdersBefore(days, day)
    decreases |days| - day
  {
    if day == |days| then [] else days[day] + OrdersFrom(days, day + 1)
  }

  /** Flattening the details commutes with concatenating the orders. */
  lemma {:induction false} AllDetailsConcat(a: seq<OrderDraw>, b: seq<OrderDraw>)
    ensures AllDetails(a + b) == AllDetails(a) + AllDetails(b)
    decreases |a|
  {
    if |a| == 0 {
      assert a + b == b;
    } else {
      assert (a + b)[1..] == a[1..] + b;
      AllDetailsConcat(a[1..], b);
      assert AllDetails(a + b) == a[0].details + (AllDetails(a[1..]) + AllDetails(b));
    }
  }

  /** The details drawn from day `day` on are those of day `day`
      followed by those of the later days. */
  lemma DetailsFromStep(days: seq<DayDraw>, day: nat)
    requires day < |days|
    ensures AllDetails(OrdersFrom(days, day))
            == AllDetails(days[day]) + AllDetails(OrdersFrom(days, day + 1))
  {
    AllDetailsConcat(days[day], OrdersFrom(days, day + 1));
  }

  /** The details drawn on days `day` onwards number as many as the day
      totals say. */
  lemma {:induction false} DetailsFrom(days: seq<DayDraw>, day: nat)
    requires day <= |days|
    ensures |AllDetails(OrdersFrom(days, day))| == DetailsBefore(days, |days|) - DetailsBefore(days, day)
    decreases |days| - day
  {
    if day < |days| {
      DetailsFrom(days, day + 1);
      AllDetailsConcat(days[day], OrdersFrom(days, day + 1));
    }
  }

  /** The j-th order drawn on day `d` is number OrdersBefore(d) + j in
      draw order. */
  lemma {:induction false} OrdersFromAt(days: seq<DayDraw>, day: nat, d: nat, j: nat)
    requires day <= d < |days| && j < |days[d]|
    ensures 0 <= OrdersBefore(days, d) - OrdersBefore(days, day) + j < |OrdersFrom(days, day)|
    ensures OrdersFrom(days, day)[OrdersBefore(days, d) - OrdersBefore(days, day) + j] == days[d][j]
    decreases d - day
  {
    if day < d {
      OrdersFromAt(days, day + 1, d, j);
    }
  }

  /** The unit cancel flags drawn for a list of details, in draw order:
      the i-th unit row inserted for them is drawn as the i-th of these. */
  function UnitsOf(ds: seq<DetailDraw>): (us: seq<bool>)
    ensures |us| == UnitsIn(ds)
  {
    if |ds| == 0 then [] else ds[0].units + UnitsOf(ds[1..])
  }

  /** Flattening the units commutes with concatenating the details. */
  lemma {:induction false} UnitsOfConcat(a: seq<DetailDraw>, b: seq<DetailDraw>)
    ensures UnitsOf(a + b) == UnitsOf(a) + UnitsOf(b)
    decreases |a|
  {
    if |a| == 0 {
      assert a + b == b;
    } else {
      assert (a + b)[1..] == a[1..] + b;
      UnitsOfConcat(a[1..], b);
      assert UnitsOf(a + b) == a[0].units + (UnitsOf(a[1..]) + UnitsOf(b));
    }
  }

  /** The units drawn for a list of orders number as many as the order
      totals say. */
  lemma {:induction false} UnitsOfOrders(os: seq<OrderDraw>)
    ensures |UnitsOf(AllDetails(os))| == UnitsInOrders(os)
    decreases |os|
  {
    if |os| > 0 {
      UnitsOfOrders(os[1..]);
      UnitsOfConcat(os[0].details, AllDetails(os[1..]));
    }
  }

  /** The units drawn from day `day` on are those of day `day` followed
      by those of the later days. */
  lemma UnitsFromStep(days: seq<DayDraw>, day: nat)
    requires day < |days|
    ensures UnitsOf(AllDetails(OrdersFrom(days, day)))
            == UnitsOf(AllDetails(days[day])) + UnitsOf(AllDetails(OrdersFrom(days, day + 1)))
  {
    DetailsFromStep(days, day);
    UnitsOfConcat(AllDetails(days[day]), AllDetails(OrdersFrom(days, day + 1)));
  }

  /** The units drawn on days `day` onwards number as many as the day
      totals say. */
  lemma {:induction false} UnitsFrom(days: seq<DayDraw>, day: nat)
    requires day <= |days|
    ensures |UnitsOf(AllDetails(OrdersFrom(days, day)))| == UnitsBefore(days, |days|) - UnitsBefore(days, day)
    decreases |days| - day
  {
    if day < |days| {
      var first, later := UnitsOf(AllDetails(days[day])), UnitsOf(AllDetails(OrdersFrom(days, day + 1)));
      assert |later| == UnitsBefore(days, |days|) - UnitsBefore(days, day + 1) by {
        UnitsFrom(days, day + 1);
      }
      assert |UnitsOf(AllDetails(OrdersFrom(days, day)))| == |first| + |later| by {
        UnitsFromStep(days, day);
      }
      assert |first| == UnitsInOrders(days[day]) by {
        UnitsOfOrders(days[day]);
      }
      assert UnitsBefore(days, day + 1) == UnitsBefore(days, day) + UnitsInOrders(days[day]);
    }
  }
}
