/** What the loop nest guarantees about the tables it fills: ids run
    1, 2, 3, ... in every table, every child row refers to a parent row
    inserted before it, the children of one parent form one contiguous
    id block of bounded size, and order dates follow the day loop. */
module Integrity {
  import opened Rows
  import opened Draws
  import opened Keys
  import opened Generator
  import opened ChildCounts

  /** "order" rows have ids 1, 2, 3, ..., a 0/1 cancel column and listed
      type and partner labels. */
  ghost predicate OrdersOk(os: seq<OrderRow>) {
    forall i :: 0 <= i < |os| ==>
      && os[i].id == i + 1
      && IsFlag(os[i].isCancelled)
      && os[i].orderType in OrderTypes
      && os[i].partnerId in Partners
  }

  /** orderdetail rows have ids 1, 2, 3, ... and 0/1 flag columns; their
      orderid column never decreases and names one of `numOrders` orders;
      every order before `oid` is finished and has 1 to 4 details. */
  ghost predicate DetailsOk(ds: seq<DetailRow>, numOrders: int, oid: int) {
    && (forall i :: 0 <= i < |ds| ==>
          && ds[i].id == i + 1
          && IsFlag(ds[i].isCancelled) && IsFlag(ds[i].isMugPrint) && IsFlag(ds[i].isStickerPrint))
    && Within(DetailParents(ds), 1, numOrders)
    && Sorted(DetailParents(ds))
    && (forall k :: 1 <= k < oid ==>
          MinDetailsPerOrder <= Count(DetailParents(ds), k) <= MaxDetailsPerOrder)
  }

  /** orderdetailunit rows have ids 1, 2, 3, ... and a 0/1 cancel column;
      their orderdetailid column never decreases and names one of
      `numDetails` details; every detail before `odid` is finished and has
      1 to 5 units. */
  ghost predicate UnitsOk(us: seq<UnitRow>, numDetails: int, odid: int) {
    && (forall i :: 0 <= i < |us| ==> us[i].id == i + 1 && IsFlag(us[i].isCancelled))
    && Within(UnitParents(us), 1, numDetails)
    && Sorted(UnitParents(us))
    && (forall k :: 1 <= k < odid ==>
          MinUnitsPerDetail <= Count(UnitParents(us), k) <= MaxUnitsPerDetail)
  }

  /** The invariants of all three tables. */
  ghost predicate Consistent(g: Gen) {
    && OrdersOk(g.orders)
    && DetailsOk(g.details, |g.orders|, g.oid)
    && UnitsOk(g.units, |g.details|, g.odid)
  }

  /** Counters between two orders: each is one past its table's last id. */
  ghost predicate BetweenOrders(g: Gen) {
    g.oid == |g.orders| + 1 && g.odid == |g.details| + 1 && g.uid == |g.units| + 1
  }

  /** Counters inside an order's detail loop: `oid` is the order just inserted. */
  ghost predicate InOrder(g: Gen) {
    |g.orders| > 0 && g.oid == |g.orders| && g.odid == |g.details| + 1 && g.uid == |g.units| + 1
  }

  /** Counters inside a detail's unit loop: `odid` is the detail just inserted. */
  ghost predicate InDetail(g: Gen) {
    |g.orders| > 0 && |g.details| > 0
    && g.oid == |g.orders| && g.odid == |g.details| && g.uid == |g.units| + 1
  }

  /** The days before `day` each received between 10 and 40 orders. */
  ghost predicate DaysFinished(os: seq<OrderRow>, day: int) {
    forall d :: 0 <= d < day ==> MinOrdersPerDay <= Count(OrderDays(os), d) <= MaxOrdersPerDay
  }

  /** Appending a unit row with the next id under detail `odid`, the
      newest detail, keeps the unit invariants and counts the unit for
      that detail only. */
  lemma UnitAppended(us: seq<UnitRow>, numDetails: int, odid: int, row: UnitRow)
    requires UnitsOk(us, numDetails, odid)
    requires row.id == |us| + 1 && IsFlag(row.isCancelled)
    requires 1 <= odid == row.detailId == numDetails
    ensures UnitsOk(us + [row], numDetails, odid)
    ensures forall k :: Count(UnitParents(us + [row]), k)
                        == Count(UnitParents(us), k) + (if k == odid then 1 else 0)
  {
    assert UnitParents(us + [row]) == UnitParents(us) + [odid];
    CountSnoc(UnitParents(us), odid);
    SortedSnoc(UnitParents(us), odid, 1, numDetails);
  }

  /** Appending a detail row with the next id under order `oid`, the
      newest order, keeps the detail invariants and counts the detail for
      that order only. */
  lemma DetailAppended(ds: seq<DetailRow>, numOrders: int, oid: int, row: DetailRow)
    requires DetailsOk(ds, numOrders, oid)
    requires row.id == |ds| + 1
    requires IsFlag(row.isCancelled) && IsFlag(row.isMugPrint) && IsFlag(row.isStickerPrint)
    requires 1 <= oid == row.orderId == numOrders
    ensures DetailsOk(ds + [row], numOrders, oid)
    ensures forall k :: Count(DetailParents(ds + [row]), k)
                        == Count(DetailParents(ds), k) + (if k == oid then 1 else 0)
  {
    assert DetailParents(ds + [row]) == DetailParents(ds) + [oid];
    CountSnoc(DetailParents(ds), oid);
    SortedSnoc(DetailParents(ds), oid, 1, numOrders);
  }

  /** A newly opened parent has no children yet. */
  lemma NoChildrenYet(ks: seq<int>, hi: int, k: int)
    requires Within(ks, 1, hi) && hi < k
    ensures Count(ks, k) == 0
  {
    CountAbsent(ks, k);
  }

  /** Inserting a unit row under the detail inserted last keeps the
      tables consistent and counts the unit for that detail only. */
  lemma InsertUnit(g: Gen, cancelled: bool)
    requires Consistent(g) && InDetail(g)
    ensures var g1 := g.(units := g.units + [UnitRow(g.uid, g.odid, Bit(cancelled))], uid := g.uid + 1);
            && Consistent(g1) && InDetail(g1)
            && forall k :: Count(UnitParents(g1.units), k)
                           == Count(UnitParents(g.units), k) + (if k == g.odid then 1 else 0)
  {
    UnitAppended(g.units, |g.details|, g.odid, UnitRow(g.uid, g.odid, Bit(cancelled)));
  }

  /** Inserting a detail row under the order inserted last keeps the
      tables consistent, counts the detail for that order only, and
      opens the detail with no units yet. */
  lemma InsertDetail(g: Gen, d: DetailDraw)
    requires Consistent(g) && InOrder(g)
    ensures var g1 := g.(details := g.details + [DetailRowOf(g.odid, g.oid, d)]);
            && Consistent(g1) && InDetail(g1)
            && Count(UnitParents(g1.units), g1.odid) == 0
            && forall k :: Count(DetailParents(g1.details), k)
                           == Count(DetailParents(g.details), k) + (if k == g.oid then 1 else 0)
  {
    DetailAppended(g.details, |g.orders|, g.oid, DetailRowOf(g.odid, g.oid, d));
    NoChildrenYet(UnitParents(g.units), |g.details|, g.odid);
    assert UnitsOk(g.units, |g.details| + 1, g.odid);
  }

  /** Inserting an order row keeps the tables consistent and opens the
      order with no details yet. */
  lemma InsertOrder(g: Gen, day: int, o: OrderDraw)
    requires Consistent(g) && BetweenOrders(g) && ChoicesInRange(o)
    ensures var g1 := g.(orders := g.orders + [OrderRowOf(g.oid, day, o)]);
            && Consistent(g1) && InOrder(g1)
            && Count(DetailParents(g1.details), g1.oid) == 0
  {
    var row := OrderRowOf(g.oid, day, o);
    assert row.orderType in OrderTypes;
    assert row.partnerId in Partners;
    assert OrdersOk(g.orders + [row]);
    NoChildrenYet(DetailParents(g.details), |g.orders|, g.oid);
    assert DetailsOk(g.details, |g.orders| + 1, g.oid);
  }

  /** Bumping `odid` after a detail with 1 to 5 units finishes it. */
  lemma FinishDetail(g: Gen)
    requires Consistent(g) && InDetail(g)
    requires MinUnitsPerDetail <= Count(UnitParents(g.units), g.odid) <= MaxUnitsPerDetail
    ensures Consistent(g.(odid := g.odid + 1)) && InOrder(g.(odid := g.odid + 1))
  {
    assert UnitsOk(g.units, |g.details|, g.odid + 1);
  }

  /** Bumping `oid` after an order with 1 to 4 details finishes it. */
  lemma FinishOrder(g: Gen)
    requires Consistent(g) && InOrder(g)
    requires MinDetailsPerOrder <= Count(DetailParents(g.details), g.oid) <= MaxDetailsPerOrder
    ensures Consistent(g.(oid := g.oid + 1)) && BetweenOrders(g.(oid := g.oid + 1))
  {
    assert DetailsOk(g.details, |g.orders|, g.oid + 1);
  }

  /** The unit loop keeps the tables consistent; the current detail's
      unit count grows by the number of draws and no other count moves. */
  lemma {:induction false} EmitUnitsKeeps(g: Gen, us: seq<bool>)
    requires Consistent(g) && InDetail(g)
    ensures Consistent(EmitUnits(g, us)) && InDetail(EmitUnits(g, us))
    ensures forall k :: Count(UnitParents(EmitUnits(g, us).units), k)
                        == Count(UnitParents(g.units), k) + (if k == g.odid then |us| else 0)
    decreases |us|
  {
    if |us| > 0 {
      InsertUnit(g, us[0]);
      var g1 := g.(units := g.units + [UnitRow(g.uid, g.odid, Bit(us[0]))], uid := g.uid + 1);
      EmitUnitsKeeps(g1, us[1..]);
      assert EmitUnits(g1, us[1..]) == EmitUnits(g, us);
    }
  }

  /** One pass of the detail loop keeps the tables consistent and adds
      one to the current order's detail count, and to no other. */
  lemma EmitDetailKeeps(g: Gen, d: DetailDraw)
    requires Consistent(g) && InOrder(g) && DetailInBounds(d)
    ensures Consistent(EmitDetail(g, d)) && InOrder(EmitDetail(g, d))
    ensures forall k :: Count(DetailParents(EmitDetail(g, d).details), k)
                        == Count(DetailParents(g.details), k) + (if k == g.oid then 1 else 0)
  {
    InsertDetail(g, d);
    var g1 := g.(details := g.details + [DetailRowOf(g.odid, g.oid, d)]);
    EmitUnitsKeeps(g1, d.units);
    FinishDetail(EmitUnits(g1, d.units));
  }

  /** The detail loop of one order keeps the tables consistent; the
      order's detail count grows by the number of draws and no other
      order's count moves. */
  lemma {:induction false} EmitDetailsKeeps(g: Gen, ds: seq<DetailDraw>)
    requires Consistent(g) && InOrder(g)
    requires forall i :: 0 <= i < |ds| ==> DetailInBounds(ds[i])
    ensures Consistent(EmitDetails(g, ds)) && InOrder(EmitDetails(g, ds))
    ensures forall k :: Count(DetailParents(EmitDetails(g, ds).details), k)
                        == Count(DetailParents(g.details), k) + (if k == g.oid then |ds| else 0)
    decreases |ds|
  {
    if |ds| > 0 {
      EmitDetailKeeps(g, ds[0]);
      EmitDetailsKeeps(EmitDetail(g, ds[0]), ds[1..]);
      assert EmitDetails(EmitDetail(g, ds[0]), ds[1..]) == EmitDetails(g, ds);
    }
  }

  /** Every unit the unit loop inserts refers to the detail row inserted
      immediately before the loop: its parent was already emitted. */
  lemma UnitsReferLatestDetail(g: Gen, us: seq<bool>)
    requires Consistent(g) && InDetail(g)
    ensures forall i :: |g.units| <= i < |EmitUnits(g, us).units| ==>
              EmitUnits(g, us).units[i].detailId == g.details[|g.details| - 1].id
  {
    var r := EmitUnits(g, us);
    assert g.details[|g.details| - 1].id == g.odid;
    forall i | |g.units| <= i < |r.units|
      ensures r.units[i].detailId == g.details[|g.details| - 1].id
    {
      var k := i - |g.units|;
      assert r.units[|g.units| + k] == UnitRow(g.uid + k, g.odid, Bit(us[k]));
    }
  }

  /** Every detail the detail loop inserts refers to the order row
      inserted immediately before the loop: its parent was already
      emitted. */
  lemma DetailsReferLatestOrder(g: Gen, ds: seq<DetailDraw>)
    requires Consistent(g) && InOrder(g)
    ensures forall i :: |g.details| <= i < |EmitDetails(g, ds).details| ==>
              EmitDetails(g, ds).details[i].orderId == g.orders[|g.orders| - 1].id
  {
    var r := EmitDetails(g, ds);
    assert g.orders[|g.orders| - 1].id == g.oid;
    forall i | |g.details| <= i < |r.details|
      ensures r.details[i].orderId == g.orders[|g.orders| - 1].id
    {
      var k := i - |g.details|;
      assert r.details[|g.details| + k] == DetailRowOf(g.odid + k, g.oid, ds[k]);
    }
  }

  /** One pass of the order loop, from between two orders to between two
      orders, keeps the tables consistent. */
  lemma EmitOrderKeeps(g: Gen, day: int, o: OrderDraw)
    requires Consistent(g) && BetweenOrders(g) && OrderInBounds(o)
    ensures Consistent(EmitOrder(g, day, o)) && BetweenOrders(EmitOrder(g, day, o))
  {
    InsertOrder(g, day, o);
    var g1 := g.(orders := g.orders + [OrderRowOf(g.oid, day, o)]);
    EmitDetailsKeeps(g1, o.details);
    FinishOrder(EmitDetails(g1, o.details));
  }

  /** The order loop of day `day` keeps the tables consistent, dates every
      order it inserts `day`, and adds the number of draws to that day's
      order count. */
  lemma {:induction false} EmitOrdersKeeps(g: Gen, day: int, os: seq<OrderDraw>)
    requires Consistent(g) && BetweenOrders(g)
    requires 0 <= day
    requires Within(OrderDays(g.orders), 0, day) && Sorted(OrderDays(g.orders))
    requires forall i :: 0 <= i < |os| ==> OrderInBounds(os[i])
    ensures AllChoicesInRange(os)
    ensures Consistent(EmitOrders(g, day, os)) && BetweenOrders(EmitOrders(g, day, os))
    ensures Within(OrderDays(EmitOrders(g, day, os).orders), 0, day)
    ensures Sorted(OrderDays(EmitOrders(g, day, os).orders))
    ensures forall d :: Count(OrderDays(EmitOrders(g, day, os).orders), d)
                        == Count(OrderDays(g.orders), d) + (if d == day then |os| else 0)
    decreases |os|
  {
    if |os| > 0 {
      EmitOrderKeeps(g, day, os[0]);
      var g1 := EmitOrder(g, day, os[0]);
      assert OrderDays(g1.orders) == OrderDays(g.orders) + [day];
      CountSnoc(OrderDays(g.orders), day);
      SortedSnoc(OrderDays(g.orders), day, 0, day);
      EmitOrdersKeeps(g1, day, os[1..]);
    }
  }

  /** Once day `day` has received its 10 to 40 orders, and no other day
      gained any, the days up to and including `day` are finished. */
  lemma DayFinished(before: seq<OrderRow>, after: seq<OrderRow>, day: int, n: int)
    requires DaysFinished(before, day) && Count(OrderDays(before), day) == 0
    requires MinOrdersPerDay <= n <= MaxOrdersPerDay
    requires forall d :: Count(OrderDays(after), d)
                         == Count(OrderDays(before), d) + (if d == day then n else 0)
    ensures DaysFinished(after, day + 1)
  {
  }

  /** The day loop from `day` onwards keeps the tables consistent; when it
      ends, all drawn days are finished. */
  lemma {:induction false} EmitDaysConsistent(g: Gen, days: seq<DayDraw>, day: nat)
    requires day <= |days| && forall d :: 0 <= d < |days| ==> DayInBounds(days[d])
    requires DaysChoicesInRange(days)
    requires Consistent(g) && BetweenOrders(g)
    requires Within(OrderDays(g.orders), 0, day - 1) && Sorted(OrderDays(g.orders))
    requires DaysFinished(g.orders, day)
    ensures Consistent(EmitDays(g, days, day)) && BetweenOrders(EmitDays(g, days, day))
    ensures Within(OrderDays(EmitDays(g, days, day).orders), 0, |days| - 1)
    ensures Sorted(OrderDays(EmitDays(g, days, day).orders))
    ensures DaysFinished(EmitDays(g, days, day).orders, |days|)
    decreases |days| - day
  {
    if day < |days| {
      DayStep(g, days, day);
      var g1 := EmitOrders(g, day, days[day]);
      EmitDaysConsistent(g1, days, day + 1);
      assert EmitDays(g1, days, day + 1) == EmitDays(g, days, day);
    }
  }

  /** One pass of the day loop: day `day` is finished afterwards. */
  lemma DayStep(g: Gen, days: seq<DayDraw>, day: nat)
    requires day < |days| && DayInBounds(days[day]) && DaysChoicesInRange(days)
    requires Consistent(g) && BetweenOrders(g)
    requires Within(OrderDays(g.orders), 0, day - 1) && Sorted(OrderDays(g.orders))
    requires DaysFinished(g.orders, day)
    ensures var g1 := EmitOrders(g, day, days[day]);
      && Consistent(g1) && BetweenOrders(g1)
      && Within(OrderDays(g1.orders), 0, day) && Sorted(OrderDays(g1.orders))
      && DaysFinished(g1.orders, day + 1)
  {
    CountAbsent(OrderDays(g.orders), day);
    assert Within(OrderDays(g.orders), 0, day);
    EmitOrdersKeeps(g, day, days[day]);
    DayFinished(g.orders, EmitOrders(g, day, days[day]).orders, day, |days[day]|);
  }
}
