/** The row-generation loop nest: days, then orders, then details, then
    units. Each loop level is a recursive function over its draws that
    threads the tables built so far and the three id counters. */
module Generator {
  import opened Rows
  import opened Draws

  /** The generator's state: rows inserted so far, in insertion order,
      and the counters `oid`, `odid` and `u_id` holding the next id of
      each table. */
  datatype Gen = Gen(orders: seq<OrderRow>, details: seq<DetailRow>, units: seq<UnitRow>,
                     oid: int, odid: int, uid: int)

  /** A fresh store: empty tables, every counter at 1. */
  const Fresh: Gen := Gen([], [], [], 1, 1, 1)

  /** The "order" row inserted for draw `o` on day offset `day`. */
  function OrderRowOf(id: int, day: int, o: OrderDraw): OrderRow
    requires ChoicesInRange(o)
  {
    OrderRow(id, day, Bit(o.cancelled), OrderTypes[o.orderType], Partners[o.partner])
  }

  /** The orderdetail row inserted for draw `d` under order `orderId`. */
  function DetailRowOf(id: int, orderId: int, d: DetailDraw): DetailRow {
    DetailRow(id, orderId, Bit(d.cancelled), Bit(d.mugPrint), Bit(d.stickerPrint))
  }

  /** The unit loop of one detail: one row per drawn flag, each under the
      current detail id, `u_id` bumped after each insert. */
  function EmitUnits(g: Gen, us: seq<bool>): (r: Gen)
    ensures r.orders == g.orders && r.details == g.details
    ensures r.oid == g.oid && r.odid == g.odid && r.uid == g.uid + |us|
    ensures |r.units| == |g.units| + |us| && r.units[..|g.units|] == g.units
    ensures forall i :: 0 <= i < |us| ==>
              r.units[|g.units| + i] == UnitRow(g.uid + i, g.odid, Bit(us[i]))
    decreases |us|
  {
    if |us| == 0 then g
    else
      var g1 := g.(units := g.units + [UnitRow(g.uid, g.odid, Bit(us[0]))], uid := g.uid + 1);
      var r := EmitUnits(g1, us[1..]);
      assert r.units[..|g.units|] == g.units by {
        assert r.units[..|g1.units|][..|g.units|] == g.units;
      }
      r
  }

  /** One pass of the detail loop: insert the detail row under the
      current order, emit its units, then bump `odid`. */
  function EmitDetail(g: Gen, d: DetailDraw): (r: Gen)
    ensures r.orders == g.orders && r.oid == g.oid
    ensures r.odid == g.odid + 1 && r.uid == g.uid + |d.units|
    ensures r.details == g.details + [DetailRowOf(g.odid, g.oid, d)]
    ensures |r.units| == |g.units| + |d.units| && r.units[..|g.units|] == g.units
    ensures forall i :: 0 <= i < |d.units| ==>
              r.units[|g.units| + i] == UnitRow(g.uid + i, g.odid, Bit(d.units[i]))
  {
    var g1 := g.(details := g.details + [DetailRowOf(g.odid, g.oid, d)]);
    var g2 := EmitUnits(g1, d.units);
    g2.(odid := g2.odid + 1)
  }

  /** The detail loop of one order. */
  function EmitDetails(g: Gen, ds: seq<DetailDraw>): (r: Gen)
    ensures r.orders == g.orders && r.oid == g.oid
    ensures r.odid == g.odid + |ds| && r.uid == g.uid + UnitsIn(ds)
    ensures |r.details| == |g.details| + |ds| && r.details[..|g.details|] == g.details
    ensures forall i :: 0 <= i < |ds| ==>
              r.details[|g.details| + i] == DetailRowOf(g.odid + i, g.oid, ds[i])
    ensures |r.units| == |g.units| + UnitsIn(ds) && r.units[..|g.units|] == g.units
    decreases |ds|
  {
    if |ds| == 0 then g
    else
      var g1 := EmitDetail(g, ds[0]);
      var r := EmitDetails(g1, ds[1..]);
      assert r.details[..|g.details|] == g.details by {
        assert r.details[..|g1.details|][..|g.details|] == g.details;
      }
      assert r.units[..|g.units|] == g.units by {
        assert r.units[..|g1.units|][..|g.units|] == g.units;
      }
      r
  }

  /** One pass of the order loop: insert the order row dated `day`, emit
      its details, then bump `oid`. */
  function EmitOrder(g: Gen, day: int, o: OrderDraw): (r: Gen)
    requires ChoicesInRange(o)
    ensures r.orders == g.orders + [OrderRowOf(g.oid, day, o)]
    ensures r.oid == g.oid + 1 && r.odid == g.odid + |o.details|
    ensures r.uid == g.uid + UnitsIn(o.details)
    ensures |r.details| == |g.details| + |o.details| && r.details[..|g.details|] == g.details
    ensures forall i :: 0 <= i < |o.details| ==>
              r.details[|g.details| + i] == DetailRowOf(g.odid + i, g.oid, o.details[i])
    ensures |r.units| == |g.units| + UnitsIn(o.details) && r.units[..|g.units|] == g.units
  {
    var g1 := g.(orders := g.orders + [OrderRowOf(g.oid, day, o)]);
    var g2 := EmitDetails(g1, o.details);
    g2.(oid := g2.oid + 1)
  }

  /** The order loop of one day. */
  function EmitOrders(g: Gen, day: int, os: seq<OrderDraw>): (r: Gen)
    requires AllChoicesInRange(os)
    ensures r.oid == g.oid + |os| && r.odid == g.odid + DetailsIn(os)
    ensures r.uid == g.uid + UnitsInOrders(os)
    ensures |r.orders| == |g.orders| + |os| && r.orders[..|g.orders|] == g.orders
    ensures |r.details| == |g.details| + DetailsIn(os) && r.details[..|g.details|] == g.details
    ensures |r.units| == |g.units| + UnitsInOrders(os) && r.units[..|g.units|] == g.units
    decreases |os|
  {
    if |os| == 0 then g
    else
      var g1 := EmitOrder(g, day, os[0]);
      var r := EmitOrders(g1, day, os[1..]);
      assert r.orders[..|g.orders|] == g.orders by {
        assert r.orders[..|g1.orders|][..|g.orders|] == g.orders;
      }
      assert r.details[..|g.details|] == g.details by {
        assert r.details[..|g1.details|][..|g.details|] == g.details;
      }
      assert r.units[..|g.units|] == g.units by {
        assert r.units[..|g1.units|][..|g.units|] == g.units;
      }
      r
  }

  /** The order loop of a day inserts one order row per draw, in draw
      order, with ids counting up from `oid`, all dated `day`. */
  lemma {:induction false} EmitOrdersRows(g: Gen, day: int, os: seq<OrderDraw>)
    requires AllChoicesInRange(os)
    ensures forall i :: 0 <= i < |os| ==>
              EmitOrders(g, day, os).orders[|g.orders| + i] == OrderRowOf(g.oid + i, day, os[i])
    decreases |os|
  {
    if |os| > 0 {
      var g1 := EmitOrder(g, day, os[0]);
      var r := EmitOrders(g1, day, os[1..]);
      assert r == EmitOrders(g, day, os);
      EmitOrdersRows(g1, day, os[1..]);
      forall i | 0 <= i < |os|
        ensures r.orders[|g.orders| + i] == OrderRowOf(g.oid + i, day, os[i])
      {
        if i == 0 {
          assert r.orders[..|g1.orders|] == g1.orders;
          assert r.orders[|g.orders|] == g1.orders[|g.orders|];
        } else {
          assert os[1..][i - 1] == os[i];
          assert r.orders[|g1.orders| + (i - 1)] == OrderRowOf(g1.oid + (i - 1), day, os[1..][i - 1]);
        }
      }
    }
  }

  /** The day loop from day offset `day` to the last drawn day. */
  function EmitDays(g: Gen, days: seq<DayDraw>, day: nat): (r: Gen)
    requires day <= |days| && DaysChoicesInRange(days)
    ensures r.oid == g.oid + OrdersBefore(days, |days|) - OrdersBefore(days, day)
    ensures r.odid == g.odid + DetailsBefore(days, |days|) - DetailsBefore(days, day)
    ensures r.uid == g.uid + UnitsBefore(days, |days|) - UnitsBefore(days, day)
    ensures |r.orders| == |g.orders| + OrdersBefore(days, |days|) - OrdersBefore(days, day)
    ensures |r.details| == |g.details| + DetailsBefore(days, |days|) - DetailsBefore(days, day)
    ensures |r.units| == |g.units| + UnitsBefore(days, |days|) - UnitsBefore(days, day)
    ensures |g.orders| <= |r.orders| && r.orders[..|g.orders|] == g.orders
    decreases |days| - day
  {
    if day == |days| then g
    else
      var g1 := EmitOrders(g, day, days[day]);
      var r := EmitDays(g1, days, day + 1);
      assert r.orders[..|g.orders|] == g.orders by {
        assert r.orders[..|g1.orders|][..|g.orders|] == g.orders;
      }
      r
  }

  /** The whole of seed(): 75 days of draws turned into three tables.
      Each table ends with one row per draw of its kind, and each
      counter one past the number of rows in its table. */
  function Seed(days: seq<DayDraw>): (g: Gen)
    requires WellFormed(days)
    ensures |g.orders| == OrdersBefore(days, |days|) && g.oid == |g.orders| + 1
    ensures |g.details| == DetailsBefore(days, |days|) && g.odid == |g.details| + 1
    ensures |g.units| == UnitsBefore(days, |days|) && g.uid == |g.units| + 1
  {
    WellFormedChoices(days);
    EmitDays(Fresh, days, 0)
  }
}
