/** How many children each parent row receives: every loop level adds to
    the child counts of exactly the parents it opens, as many as were
    drawn for them, and leaves every other count where it was. */
module ChildCounts {
  import opened Rows
  import opened Draws
  import opened Keys
  import opened Generator

  /** The unit loop counts every unit it inserts for the current detail. */
  lemma {:induction false} EmitUnitsCounted(g: Gen, us: seq<bool>)
    ensures forall k :: Count(UnitParents(EmitUnits(g, us).units), k)
                        == Count(UnitParents(g.units), k) + (if k == g.odid then |us| else 0)
    decreases |us|
  {
    if |us| > 0 {
      var g1 := g.(units := g.units + [UnitRow(g.uid, g.odid, Bit(us[0]))], uid := g.uid + 1);
      assert UnitParents(g1.units) == UnitParents(g.units) + [g.odid];
      CountSnoc(UnitParents(g.units), g.odid);
      EmitUnitsCounted(g1, us[1..]);
      assert EmitUnits(g1, us[1..]) == EmitUnits(g, us);
    }
  }

  /** One pass of the detail loop adds one detail to the current order
      and as many units as were drawn to the new detail. */
  lemma EmitDetailCounted(g: Gen, d: DetailDraw)
    ensures forall k :: Count(DetailParents(EmitDetail(g, d).details), k)
                        == Count(DetailParents(g.details), k) + (if k == g.oid then 1 else 0)
    ensures forall k :: Count(UnitParents(EmitDetail(g, d).units), k)
                        == Count(UnitParents(g.units), k) + (if k == g.odid then |d.units| else 0)
  {
    assert DetailParents(EmitDetail(g, d).details) == DetailParents(g.details) + [g.oid];
    CountSnoc(DetailParents(g.details), g.oid);
    EmitUnitsCounted(g.(details := g.details + [DetailRowOf(g.odid, g.oid, d)]), d.units);
  }

  /** The detail loop adds one detail per draw to the current order and
      none to any other order. */
  lemma {:induction false} EmitDetailsCounted(g: Gen, ds: seq<DetailDraw>)
    ensures forall k :: Count(DetailParents(EmitDetails(g, ds).details), k)
                        == Count(DetailParents(g.details), k) + (if k == g.oid then |ds| else 0)
    decreases |ds|
  {
    if |ds| > 0 {
      var g1 := EmitDetail(g, ds[0]);
      EmitDetailCounted(g, ds[0]);
      EmitDetailsCounted(g1, ds[1..]);
      assert EmitDetails(g1, ds[1..]) == EmitDetails(g, ds);
    }
  }

  /** The detail loop gives the i-th detail it opens (id `odid + i`) the
      units drawn for it, and no units to any other detail. */
  lemma {:induction false} EmitDetailsUnitsCounted(g: Gen, ds: seq<DetailDraw>)
    ensures forall k :: Count(UnitParents(EmitDetails(g, ds).units), k)
                        == Count(UnitParents(g.units), k)
                           + (if g.odid <= k < g.odid + |ds| then |ds[k - g.odid].units| else 0)
    decreases |ds|
  {
    if |ds| > 0 {
      var g1 := EmitDetail(g, ds[0]);
      EmitDetailCounted(g, ds[0]);
      EmitDetailsUnitsCounted(g1, ds[1..]);
      var r := EmitDetails(g1, ds[1..]);
      assert r == EmitDetails(g, ds);
      forall k
        ensures Count(UnitParents(r.units), k)
                == Count(UnitParents(g.units), k)
                   + (if g.odid <= k < g.odid + |ds| then |ds[k - g.odid].units| else 0)
      {
        if g1.odid <= k < g1.odid + |ds| - 1 {
          assert ds[1..][k - g1.odid] == ds[k - g.odid];
        }
      }
    }
  }

  /** One pass of the order loop gives the new order (id `oid`) the
      details drawn for it, and the i-th of them the units drawn for it. */
  lemma EmitOrderCounted(g: Gen, day: int, o: OrderDraw)
    requires ChoicesInRange(o)
    ensures forall k :: Count(DetailParents(EmitOrder(g, day, o).details), k)
                        == Count(DetailParents(g.details), k) + (if k == g.oid then |o.details| else 0)
    ensures forall k :: Count(UnitParents(EmitOrder(g, day, o).units), k)
                        == Count(UnitParents(g.units), k)
                           + (if g.odid <= k < g.odid + |o.details| then |o.details[k - g.odid].units| else 0)
  {
    var g1 := g.(orders := g.orders + [OrderRowOf(g.oid, day, o)]);
    EmitDetailsCounted(g1, o.details);
    EmitDetailsUnitsCounted(g1, o.details);
  }

  /** The order loop of a day gives its i-th order (id `oid + i`) the
      details drawn for it, and no details to any other order. */
  lemma {:induction false} EmitOrdersCounted(g: Gen, day: int, os: seq<OrderDraw>)
    requires AllChoicesInRange(os)
    ensures forall k :: Count(DetailParents(EmitOrders(g, day, os).details), k)
                        == Count(DetailParents(g.details), k)
                           + (if g.oid <= k < g.oid + |os| then |os[k - g.oid].details| else 0)
    decreases |os|
  {
    if |os| > 0 {
      var g1 := EmitOrder(g, day, os[0]);
      EmitOrderCounted(g, day, os[0]);
      EmitOrdersCounted(g1, day, os[1..]);
      var r := EmitOrders(g1, day, os[1..]);
      assert r == EmitOrders(g, day, os);
      forall k
        ensures Count(DetailParents(r.details), k)
                == Count(DetailParents(g.details), k)
                   + (if g.oid <= k < g.oid + |os| then |os[k - g.oid].details| else 0)
      {
        assert Count(DetailParents(r.details), k)
               == Count(DetailParents(g1.details), k)
                  + (if g1.oid <= k < g1.oid + |os| - 1 then |os[1..][k - g1.oid].details| else 0);
        if g1.oid <= k < g1.oid + |os| - 1 {
          assert os[1..][k - g1.oid] == os[k - g.oid];
        }
      }
    }
  }

  /** The order loop of a day gives the i-th detail it draws (id
      `odid + i`) the units drawn for it, and no units to any other
      detail. */
  lemma {:induction false} EmitOrdersUnitsCounted(g: Gen, day: int, os: seq<OrderDraw>)
    requires AllChoicesInRange(os)
    ensures forall k :: Count(UnitParents(EmitOrders(g, day, os).units), k)
                        == Count(UnitParents(g.units), k)
                           + (if g.odid <= k < g.odid + |AllDetails(os)|
                              then |AllDetails(os)[k - g.odid].units| else 0)
    decreases |os|
  {
    if |os| > 0 {
      var g1 := EmitOrder(g, day, os[0]);
      EmitOrderCounted(g, day, os[0]);
      EmitOrdersUnitsCounted(g1, day, os[1..]);
      var r := EmitOrders(g1, day, os[1..]);
      assert r == EmitOrders(g, day, os);
      var all := AllDetails(os);
      assert all == os[0].details + AllDetails(os[1..]);
      forall k
        ensures Count(UnitParents(r.units), k)
                == Count(UnitParents(g.units), k)
                   + (if g.odid <= k < g.odid + |all| then |all[k - g.odid].units| else 0)
      {
        if g.odid <= k < g1.odid {
          assert all[k - g.odid] == os[0].details[k - g.odid];
        } else if g1.odid <= k < g.odid + |all| {
          assert all[k - g.odid] == AllDetails(os[1..])[k - g1.odid];
        }
      }
    }
  }

  /** The day loop from `day` on gives the i-th order it draws (id
      `oid + i`) the details drawn for it, and no details to any other
      order. */
  lemma {:induction false} EmitDaysCounted(g: Gen, days: seq<DayDraw>, day: nat)
    requires day <= |days| && DaysChoicesInRange(days)
    ensures var os := OrdersFrom(days, day);
      forall k :: Count(DetailParents(EmitDays(g, days, day).details), k)
                  == Count(DetailParents(g.details), k)
                     + (if g.oid <= k < g.oid + |os| then |os[k - g.oid].details| else 0)
    decreases |days| - day
  {
    if day < |days| {
      var g1 := EmitOrders(g, day, days[day]);
      EmitOrdersCounted(g, day, days[day]);
      EmitDaysCounted(g1, days, day + 1);
      var r := EmitDays(g1, days, day + 1);
      assert r == EmitDays(g, days, day);
      var os, rest := OrdersFrom(days, day), OrdersFrom(days, day + 1);
      assert os == days[day] + rest;
      forall k
        ensures Count(DetailParents(r.details), k)
                == Count(DetailParents(g.details), k)
                   + (if g.oid <= k < g.oid + |os| then |os[k - g.oid].details| else 0)
      {
        if g.oid <= k < g1.oid {
          assert os[k - g.oid] == days[day][k - g.oid];
        } else if g1.oid <= k < g.oid + |os| {
          assert os[k - g.oid] == rest[k - g1.oid];
        }
      }
    }
  }

  /** The day loop from `day` on gives the i-th detail it draws (id
      `odid + i`) the units drawn for it, and no units to any other
      detail. */
  lemma {:induction false} EmitDaysUnitsCounted(g: Gen, days: seq<DayDraw>, day: nat)
    requires day <= |days| && DaysChoicesInRange(days)
    ensures var ds := AllDetails(OrdersFrom(days, day));
      forall k :: Count(UnitParents(EmitDays(g, days, day).units), k)
                  == Count(UnitParents(g.units), k)
                     + (if g.odid <= k < g.odid + |ds| then |ds[k - g.odid].units| else 0)
    decreases |days| - day
  {
    if day < |days| {
      var g1 := EmitOrders(g, day, days[day]);
      EmitOrdersUnitsCounted(g, day, days[day]);
      EmitDaysUnitsCounted(g1, days, day + 1);
      var r := EmitDays(g1, days, day + 1);
      assert r == EmitDays(g, days, day);
      var os, rest := OrdersFrom(days, day), OrdersFrom(days, day + 1);
      assert os == days[day] + rest;
      AllDetailsConcat(days[day], rest);
      var ds, first := AllDetails(os), AllDetails(days[day]);
      assert ds == first + AllDetails(rest);
      assert g1.odid == g.odid + |first|;
      forall k
        ensures Count(UnitParents(r.units), k)
                == Count(UnitParents(g.units), k)
                   + (if g.odid <= k < g.odid + |ds| then |ds[k - g.odid].units| else 0)
      {
        if g.odid <= k < g1.odid {
          assert ds[k - g.odid] == first[k - g.odid];
        } else if g1.odid <= k < g.odid + |ds| {
          assert ds[k - g.odid] == AllDetails(rest)[k - g1.odid];
        }
      }
    }
  }
}
