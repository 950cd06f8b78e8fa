/** Properties of a complete run of seed(), stated on its final tables. */
module SeedProperties {
  import opened Rows
  import opened Draws
  import opened Keys
  import opened Generator
  import opened Integrity
  import opened ChildCounts
  import opened DrawnFlags

  /** The invariants of the loop nest, established for a complete run. */
  lemma SeedConsistent(days: seq<DayDraw>)
    requires WellFormed(days)
    ensures Consistent(Seed(days)) && BetweenOrders(Seed(days))
    ensures Within(OrderDays(Seed(days).orders), 0, NumDays - 1)
    ensures Sorted(OrderDays(Seed(days).orders))
    ensures DaysFinished(Seed(days).orders, NumDays)
  {
    WellFormedChoices(days);
    EmitDaysConsistent(Fresh, days, 0);
  }

  /** Ids are 1, 2, 3, ... in every table, and every counter ends one past
      its table's last id: the counter minus one is the row count. */
  lemma SeedIdsContiguous(days: seq<DayDraw>)
    requires WellFormed(days)
    ensures var g := Seed(days);
      && (forall i :: 0 <= i < |g.orders| ==> g.orders[i].id == i + 1)
      && (forall i :: 0 <= i < |g.details| ==> g.details[i].id == i + 1)
      && (forall i :: 0 <= i < |g.units| ==> g.units[i].id == i + 1)
      && g.oid - 1 == |g.orders| && g.odid - 1 == |g.details| && g.uid - 1 == |g.units|
  {
    SeedConsistent(days);
  }

  /** Some order row has id `id`. */
  ghost predicate OrderExists(os: seq<OrderRow>, id: int) {
    exists k :: 0 <= k < |os| && os[k].id == id
  }

  /** Some orderdetail row has id `id`. */
  ghost predicate DetailExists(ds: seq<DetailRow>, id: int) {
    exists k :: 0 <= k < |ds| && ds[k].id == id
  }

  /** Every orderdetail refers to an existing order. */
  lemma SeedDetailsReferenceOrders(days: seq<DayDraw>)
    requires WellFormed(days)
    ensures var g := Seed(days);
      forall i :: 0 <= i < |g.details| ==> OrderExists(g.orders, g.details[i].orderId)
  {
    SeedConsistent(days);
    var g := Seed(days);
    assert OrdersOk(g.orders) && DetailsOk(g.details, |g.orders|, g.oid);
    forall i | 0 <= i < |g.details|
      ensures OrderExists(g.orders, g.details[i].orderId)
    {
      assert DetailParents(g.details)[i] == g.details[i].orderId;
      var k := g.details[i].orderId - 1;
      assert g.orders[k].id == g.details[i].orderId;
    }
  }

  /** Every orderdetailunit refers to an existing orderdetail. */
  lemma SeedUnitsReferenceDetails(days: seq<DayDraw>)
    requires WellFormed(days)
    ensures var g := Seed(days);
      forall i :: 0 <= i < |g.units| ==> DetailExists(g.details, g.units[i].detailId)
  {
    SeedConsistent(days);
    var g := Seed(days);
    assert DetailsOk(g.details, |g.orders|, g.oid) && UnitsOk(g.units, |g.details|, g.odid);
    forall i | 0 <= i < |g.units|
      ensures DetailExists(g.details, g.units[i].detailId)
    {
      assert UnitParents(g.units)[i] == g.units[i].detailId;
      var k := g.units[i].detailId - 1;
      assert g.details[k].id == g.units[i].detailId;
    }
  }

  /** The details of one order occupy one contiguous block of rows (so of
      ids), and so do the units of one detail. */
  lemma SeedChildBlocksContiguous(days: seq<DayDraw>)
    requires WellFormed(days)
    ensures var g := Seed(days);
      && (forall i, m, j :: 0 <= i <= m <= j < |g.details| && g.details[i].orderId == g.details[j].orderId
            ==> g.details[m].orderId == g.details[i].orderId)
      && (forall i, m, j :: 0 <= i <= m <= j < |g.units| && g.units[i].detailId == g.units[j].detailId
            ==> g.units[m].detailId == g.units[i].detailId)
  {
    SeedConsistent(days);
    var g := Seed(days);
    forall i, m, j | 0 <= i <= m <= j < |g.details| && g.details[i].orderId == g.details[j].orderId
      ensures g.details[m].orderId == g.details[i].orderId
    {
      SortedBlocks(DetailParents(g.details), i, m, j);
    }
    forall i, m, j | 0 <= i <= m <= j < |g.units| && g.units[i].detailId == g.units[j].detailId
      ensures g.units[m].detailId == g.units[i].detailId
    {
      SortedBlocks(UnitParents(g.units), i, m, j);
    }
  }

  /** Every order has 1 to 4 details, every detail 1 to 5 units, and each
      of the 75 days 10 to 40 orders. */
  lemma SeedCardinalities(days: seq<DayDraw>)
    requires WellFormed(days)
    ensures var g := Seed(days);
      && (forall k :: 1 <= k <= |g.orders| ==>
            MinDetailsPerOrder <= Count(DetailParents(g.details), k) <= MaxDetailsPerOrder)
      && (forall k :: 1 <= k <= |g.details| ==>
            MinUnitsPerDetail <= Count(UnitParents(g.units), k) <= MaxUnitsPerDetail)
      && (forall d :: 0 <= d < NumDays ==>
            MinOrdersPerDay <= Count(OrderDays(g.orders), d) <= MaxOrdersPerDay)
  {
    SeedConsistent(days);
  }

  /** Some orderdetail row refers to order `id`. */
  ghost predicate OrderHasDetail(ds: seq<DetailRow>, id: int) {
    exists i :: 0 <= i < |ds| && ds[i].orderId == id
  }

  /** Some orderdetailunit row refers to orderdetail `id`. */
  ghost predicate DetailHasUnit(us: seq<UnitRow>, id: int) {
    exists i :: 0 <= i < |us| && us[i].detailId == id
  }

  /** Orders are numbered in draw order, and each gets exactly the
      orderdetails drawn for it: order k has as many as the k-th order
      drawn. */
  lemma SeedDetailCounts(days: seq<DayDraw>)
    requires WellFormed(days)
    ensures var g, os := Seed(days), OrdersFrom(days, 0);
      |os| == |g.orders| && DetailCountsMatch(DetailParents(g.details), os)
  {
    WellFormedChoices(days);
    EmitDaysCounted(Fresh, days, 0);
  }

  /** Order k (numbered from 1) is the parent of exactly as many
      orderdetails as the k-th order drawn. */
  predicate DetailCountsMatch(ps: seq<int>, os: seq<OrderDraw>) {
    forall k :: 1 <= k <= |os| ==> Count(ps, k) == |os[k - 1].details|
  }

  /** Orderdetails are numbered in draw order, and each gets exactly the
      units drawn for it: orderdetail k has as many as the k-th detail
      drawn. */
  lemma SeedUnitCounts(days: seq<DayDraw>)
    requires WellFormed(days)
    ensures var g, ds := Seed(days), AllDetails(OrdersFrom(days, 0));
      |ds| == |g.details| && UnitCountsMatch(UnitParents(g.units), ds)
  {
    WellFormedChoices(days);
    FreshUnitCounts(days);
    assert Seed(days) == EmitDays(Fresh, days, 0);
    DetailsFrom(days, 0);
  }

  /** The day loop started from empty tables gives each orderdetail the
      units drawn for it. */
  lemma FreshUnitCounts(days: seq<DayDraw>)
    requires DaysChoicesInRange(days)
    ensures UnitCountsMatch(UnitParents(EmitDays(Fresh, days, 0).units), AllDetails(OrdersFrom(days, 0)))
  {
    EmitDaysUnitsCounted(Fresh, days, 0);
    UnitCountsFromEmpty(UnitParents(Fresh.units), UnitParents(EmitDays(Fresh, days, 0).units),
                        AllDetails(OrdersFrom(days, 0)), Fresh.odid);
  }

  /** Counts that start from an empty column and grow by each detail's
      units, numbered from 1, match the draws. */
  lemma UnitCountsFromEmpty(before: seq<int>, after: seq<int>, ds: seq<DetailDraw>, base: int)
    requires |before| == 0 && base == 1
    requires forall k :: Count(after, k) == Count(before, k) + (if base <= k < base + |ds| then |ds[k - base].units| else 0)
    ensures UnitCountsMatch(after, ds)
  {
    forall k | 1 <= k <= |ds|
      ensures Count(after, k) == |ds[k - 1].units|
    {
      assert Count(after, k) == Count(before, k) + |ds[k - base].units|;
    }
  }

  /** Orderdetail k (numbered from 1) is the parent of exactly as many
      units as the k-th detail drawn. */
  predicate UnitCountsMatch(ps: seq<int>, ds: seq<DetailDraw>) {
    forall k :: 1 <= k <= |ds| ==> Count(ps, k) == |ds[k - 1].units|
  }

  /** The order drawn j-th on day d, which is order row
      OrdersBefore(d) + j + 1, has exactly the number of orderdetails
      drawn for it. */
  lemma SeedOrderDetailCount(days: seq<DayDraw>, d: nat, j: nat)
    requires WellFormed(days)
    requires d < |days| && j < |days[d]|
    ensures OrdersBefore(days, d) + j < |Seed(days).orders|
    ensures Count(DetailParents(Seed(days).details), OrdersBefore(days, d) + j + 1) == |days[d][j].details|
  {
    SeedDetailCounts(days);
    CountOfDraw(DetailParents(Seed(days).details), days, d, j);
  }

  /** Reading the count of the j-th order drawn on day d off a per-order
      count table. */
  lemma CountOfDraw(ps: seq<int>, days: seq<DayDraw>, d: nat, j: nat)
    requires DetailCountsMatch(ps, OrdersFrom(days, 0))
    requires d < |days| && j < |days[d]|
    ensures OrdersBefore(days, d) + j < |OrdersFrom(days, 0)|
    ensures Count(ps, OrdersBefore(days, d) + j + 1) == |days[d][j].details|
  {
    OrdersFromAt(days, 0, d, j);
    var os, i := OrdersFrom(days, 0), OrdersBefore(days, d) + j;
    assert os[i] == days[d][j];
    assert Count(ps, i + 1) == |os[i].details|;
  }

  /** Conversely to referential integrity, no parent is childless: every
      order is referred to by some orderdetail, every orderdetail by some
      unit. */
  lemma SeedNoChildlessParents(days: seq<DayDraw>)
    requires WellFormed(days)
    ensures var g := Seed(days);
      && (forall k :: 0 <= k < |g.orders| ==> OrderHasDetail(g.details, g.orders[k].id))
      && (forall k :: 0 <= k < |g.details| ==> DetailHasUnit(g.units, g.details[k].id))
  {
    SeedConsistent(days);
    var g := Seed(days);
    forall k | 0 <= k < |g.orders|
      ensures OrderHasDetail(g.details, g.orders[k].id)
    {
      CountPositive(DetailParents(g.details), k + 1);
      var i :| 0 <= i < |g.details| && DetailParents(g.details)[i] == k + 1;
      assert g.details[i].orderId == g.orders[k].id;
    }
    forall k | 0 <= k < |g.details|
      ensures DetailHasUnit(g.units, g.details[k].id)
    {
      CountPositive(UnitParents(g.units), k + 1);
      var i :| 0 <= i < |g.units| && UnitParents(g.units)[i] == k + 1;
      assert g.units[i].detailId == g.details[k].id;
    }
  }

  /** Every 0/1 column holds 0 or 1; the partner is one of three labels
      and the type is "standard" or "reprint". */
  lemma SeedColumnDomains(days: seq<DayDraw>)
    requires WellFormed(days)
    ensures var g := Seed(days);
      && (forall i :: 0 <= i < |g.orders| ==>
            && IsFlag(g.orders[i].isCancelled)
            && g.orders[i].orderType in {"standard", "reprint"}
            && g.orders[i].partnerId in {"teepublicvip", "printify", "acme"})
      && (forall i :: 0 <= i < |g.details| ==>
            IsFlag(g.details[i].isCancelled) && IsFlag(g.details[i].isMugPrint)
            && IsFlag(g.details[i].isStickerPrint))
      && (forall i :: 0 <= i < |g.units| ==> IsFlag(g.units[i].isCancelled))
  {
    SeedConsistent(days);
    var g := Seed(days);
    forall i | 0 <= i < |g.orders|
      ensures g.orders[i].orderType in {"standard", "reprint"}
      ensures g.orders[i].partnerId in {"teepublicvip", "printify", "acme"}
    {
      assert g.orders[i].orderType in OrderTypes;
      assert g.orders[i].partnerId in Partners;
    }
  }

  /** After the day loop from `day` has run from `g` to `r`, the j-th order
      drawn on day `d` sits right after the orders of days `day` to
      `d - 1`, dated `d`, with the id the counter held when it was drawn. */
  ghost predicate RowPlaced(g: Gen, r: Gen, days: seq<DayDraw>, day: nat, d: nat, j: int)
    requires day <= d < |days| && DaysChoicesInRange(days) && 0 <= j < |days[d]|
  {
    var offset := OrdersBefore(days, d) - OrdersBefore(days, day) + j;
    && 0 <= |g.orders| + offset < |r.orders|
    && r.orders[|g.orders| + offset] == OrderRowOf(g.oid + offset, d, days[d][j])
  }

  /** The day loop from `day` places every order drawn on a later day. */
  lemma {:induction false} EmitDaysOrderRows(g: Gen, days: seq<DayDraw>, day: nat)
    requires day <= |days| && DaysChoicesInRange(days)
    ensures forall d, j :: day <= d < |days| && 0 <= j < |days[d]| ==>
              RowPlaced(g, EmitDays(g, days, day), days, day, d, j)
    decreases |days| - day
  {
    if day < |days| {
      var g1 := EmitOrders(g, day, days[day]);
      EmitDaysOrderRows(g1, days, day + 1);
      forall d, j | day <= d < |days| && 0 <= j < |days[d]|
        ensures RowPlaced(g, EmitDays(g, days, day), days, day, d, j)
      {
        if d == day {
          FirstDayRows(g, days, day, j);
        } else {
          LaterDayRows(g, days, day, d, j);
        }
      }
    }
  }

  /** The orders of day `day` itself, which the recursive call on the
      later days leaves in place. */
  lemma FirstDayRows(g: Gen, days: seq<DayDraw>, day: nat, j: int)
    requires day < |days| && DaysChoicesInRange(days) && 0 <= j < |days[day]|
    ensures RowPlaced(g, EmitDays(g, days, day), days, day, day, j)
  {
    var g1 := EmitOrders(g, day, days[day]);
    var r := EmitDays(g1, days, day + 1);
    assert r == EmitDays(g, days, day);
    EmitOrdersRows(g, day, days[day]);
    assert r.orders[..|g1.orders|] == g1.orders;
    assert r.orders[|g.orders| + j] == g1.orders[|g.orders| + j];
  }

  /** The orders of a later day `d`, placed by the recursive call on the
      days after `day`. */
  lemma LaterDayRows(g: Gen, days: seq<DayDraw>, day: nat, d: nat, j: int)
    requires day < d < |days| && DaysChoicesInRange(days) && 0 <= j < |days[d]|
    requires RowPlaced(EmitOrders(g, day, days[day]), EmitDays(EmitOrders(g, day, days[day]), days, day + 1),
                       days, day + 1, d, j)
    ensures RowPlaced(g, EmitDays(g, days, day), days, day, d, j)
  {
    var g1 := EmitOrders(g, day, days[day]);
    var r := EmitDays(g1, days, day + 1);
    assert r == EmitDays(g, days, day);
    var later := OrdersBefore(days, d) - OrdersBefore(days, day + 1) + j;
    var offset := OrdersBefore(days, d) - OrdersBefore(days, day) + j;
    assert offset == |days[day]| + later by {
      assert OrdersBefore(days, day + 1) == OrdersBefore(days, day) + |days[day]|;
    }
    assert |g1.orders| + later == |g.orders| + offset && g1.oid + later == g.oid + offset;
    assert r.orders[|g1.orders| + later] == OrderRowOf(g1.oid + later, d, days[d][j]);
  }

  /** Order rows are the drawn orders, day by day in draw order: the j-th
      order drawn on day d is the row with id OrdersBefore(d) + j + 1, is
      dated d days after the anchor date, and carries its drawn cancel
      flag, type and partner. */
  lemma SeedOrderRow(days: seq<DayDraw>, d: nat, j: nat)
    requires WellFormed(days)
    requires d < |days| && j < |days[d]|
    ensures DaysChoicesInRange(days)
    ensures var i := OrdersBefore(days, d) + j;
      && i < |Seed(days).orders|
      && Seed(days).orders[i] == OrderRowOf(i + 1, d, days[d][j])
  {
    WellFormedChoices(days);
    var r := EmitDays(Fresh, days, 0);
    EmitDaysOrderRows(Fresh, days, 0);
    assert RowPlaced(Fresh, r, days, 0, d, j);
    assert Seed(days) == r;
  }

  /** Order dates never decrease as order ids grow, and all lie within
      the 75 drawn days. */
  lemma SeedOrderDates(days: seq<DayDraw>)
    requires WellFormed(days)
    ensures var g := Seed(days);
      && (forall i :: 0 <= i < |g.orders| ==> 0 <= g.orders[i].createdDay < NumDays)
      && (forall i, j :: 0 <= i < j < |g.orders| ==> g.orders[i].createdDay <= g.orders[j].createdDay)
  {
    SeedConsistent(days);
    var g := Seed(days);
    forall i | 0 <= i < |g.orders|
      ensures 0 <= g.orders[i].createdDay < NumDays
    {
      assert 0 <= OrderDays(g.orders)[i] <= NumDays - 1;
    }
    forall i, j | 0 <= i < j < |g.orders|
      ensures g.orders[i].createdDay <= g.orders[j].createdDay
    {
      assert OrderDays(g.orders)[i] <= OrderDays(g.orders)[j];
    }
  }

  /** Orderdetail rows carry, in draw order, the cancel, mug-print and
      sticker-print flags drawn for the orderdetails. */
  lemma SeedDetailFlags(days: seq<DayDraw>)
    requires WellFormed(days)
    ensures var g, ds := Seed(days), AllDetails(OrdersFrom(days, 0));
      && |ds| == |g.details|
      && forall i :: 0 <= i < |g.details| ==> DetailDrawn(g.details[i], ds[i])
  {
    WellFormedChoices(days);
    var r, ds := EmitDays(Fresh, days, 0), AllDetails(OrdersFrom(days, 0));
    EmitDaysDetailRows(Fresh, days, 0);
    DetailsFrom(days, 0);
    forall i | 0 <= i < |r.details|
      ensures DetailDrawn(r.details[i], ds[i])
    {
      assert DetailAt(Fresh, r, ds, i);
    }
    assert Seed(days) == r;
  }

  /** Unit rows carry, in draw order, the cancel flags drawn for the
      units. */
  lemma SeedUnitFlags(days: seq<DayDraw>)
    requires WellFormed(days)
    ensures var g, us := Seed(days), UnitsOf(AllDetails(OrdersFrom(days, 0)));
      && |us| == |g.units|
      && forall i :: 0 <= i < |g.units| ==> g.units[i].isCancelled == Bit(us[i])
  {
    WellFormedChoices(days);
    var r, us := EmitDays(Fresh, days, 0), UnitsOf(AllDetails(OrdersFrom(days, 0)));
    EmitDaysUnitRows(Fresh, days, 0);
    UnitsFrom(days, 0);
    forall i | 0 <= i < |r.units|
      ensures r.units[i].isCancelled == Bit(us[i])
    {
      assert UnitAt(Fresh, r, us, i);
    }
    assert Seed(days) == r;
  }
}
