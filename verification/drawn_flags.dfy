/** Which draw each orderdetail and orderdetailunit row records: the
    i-th detail row the loops insert carries the flags of the i-th detail
    drawn, and the i-th unit row the cancel flag of the i-th unit drawn. */
module DrawnFlags {
  import opened Rows
  import opened Draws
  import opened Generator

  /** An orderdetail row records the three flags of draw `d`. */
  predicate DetailDrawn(row: DetailRow, d: DetailDraw) {
    && row.isCancelled == Bit(d.cancelled)
    && row.isMugPrint == Bit(d.mugPrint)
    && row.isStickerPrint == Bit(d.stickerPrint)
  }

  /** Starting from `g` and ending in `r`, the i-th of the details `ds`
      drawn meanwhile sits i rows after the details `g` held, and records
      its draw. */
  predicate DetailAt(g: Gen, r: Gen, ds: seq<DetailDraw>, i: int) {
    && 0 <= i < |ds| && |g.details| + i < |r.details|
    && DetailDrawn(r.details[|g.details| + i], ds[i])
  }

  /** Starting from `g` and ending in `r`, the i-th of the unit flags `us`
      drawn meanwhile sits i rows after the units `g` held, and records
      its draw in its cancel column. */
  predicate UnitAt(g: Gen, r: Gen, us: seq<bool>, i: int) {
    && 0 <= i < |us| && |g.units| + i < |r.units|
    && r.units[|g.units| + i].isCancelled == Bit(us[i])
  }

  /** Two consecutive stretches of a loop, from `g` to `g1` drawing the
      details `first` and from `g1` to `r` drawing `later`, where the
      second only appends rows, together place `first + later`. */
  lemma CombineDetails(g: Gen, g1: Gen, r: Gen, first: seq<DetailDraw>, later: seq<DetailDraw>)
    requires |g1.details| == |g.details| + |first|
    requires |g1.details| <= |r.details| && r.details[..|g1.details|] == g1.details
    requires forall i :: 0 <= i < |first| ==> DetailAt(g, g1, first, i)
    requires forall i :: 0 <= i < |later| ==> DetailAt(g1, r, later, i)
    ensures forall i :: 0 <= i < |first + later| ==> DetailAt(g, r, first + later, i)
  {
    forall i | 0 <= i < |first + later|
      ensures DetailAt(g, r, first + later, i)
    {
      if i < |first| {
        assert DetailAt(g, g1, first, i);
        assert r.details[|g.details| + i] == r.details[..|g1.details|][|g.details| + i];
        assert (first + later)[i] == first[i];
      } else {
        assert DetailAt(g1, r, later, i - |first|);
        assert (first + later)[i] == later[i - |first|];
      }
    }
  }

  /** The unit counterpart of CombineDetails. */
  lemma CombineUnits(g: Gen, g1: Gen, r: Gen, first: seq<bool>, later: seq<bool>)
    requires |g1.units| == |g.units| + |first|
    requires |g1.units| <= |r.units| && r.units[..|g1.units|] == g1.units
    requires forall i :: 0 <= i < |first| ==> UnitAt(g, g1, first, i)
    requires forall i :: 0 <= i < |later| ==> UnitAt(g1, r, later, i)
    ensures forall i :: 0 <= i < |first + later| ==> UnitAt(g, r, first + later, i)
  {
    forall i | 0 <= i < |first + later|
      ensures UnitAt(g, r, first + later, i)
    {
      if i < |first| {
        assert UnitAt(g, g1, first, i);
        assert r.units[|g.units| + i] == r.units[..|g1.units|][|g.units| + i];
        assert (first + later)[i] == first[i];
      } else {
        assert UnitAt(g1, r, later, i - |first|);
        assert (first + later)[i] == later[i - |first|];
      }
    }
  }

  /** The detail rows inserted for one order record that order's drawn
      details. */
  lemma OrderDetailRows(g: Gen, day: int, o: OrderDraw)
    requires ChoicesInRange(o)
    ensures forall i :: 0 <= i < |o.details| ==> DetailAt(g, EmitOrder(g, day, o), o.details, i)
  {
    var r := EmitOrder(g, day, o);
    forall i | 0 <= i < |o.details|
      ensures DetailAt(g, r, o.details, i)
    {
      assert r.details[|g.details| + i] == DetailRowOf(g.odid + i, g.oid, o.details[i]);
    }
  }

  /** The details the order loop of a day inserts record, in order, the
      details drawn for its orders. */
  lemma {:induction false} EmitOrdersDetailRows(g: Gen, day: int, os: seq<OrderDraw>)
    requires AllChoicesInRange(os)
    ensures forall i :: 0 <= i < |AllDetails(os)| ==> DetailAt(g, EmitOrders(g, day, os), AllDetails(os), i)
    decreases |os|
  {
    if |os| > 0 {
      var g1 := EmitOrder(g, day, os[0]);
      OrderDetailRows(g, day, os[0]);
      EmitOrdersDetailRows(g1, day, os[1..]);
      var r := EmitOrders(g1, day, os[1..]);
      assert r == EmitOrders(g, day, os);
      var first, later := os[0].details, AllDetails(os[1..]);
      assert AllDetails(os) == first + later;
      CombineDetails(g, g1, r, first, later);
    }
  }

  /** The day loop only appends detail rows. */
  lemma {:induction false} DetailsPrefix(g: Gen, days: seq<DayDraw>, day: nat)
    requires day <= |days| && DaysChoicesInRange(days)
    ensures var r := EmitDays(g, days, day);
      |g.details| <= |r.details| && r.details[..|g.details|] == g.details
    decreases |days| - day
  {
    if day < |days| {
      var g1 := EmitOrders(g, day, days[day]);
      DetailsPrefix(g1, days, day + 1);
      var r := EmitDays(g1, days, day + 1);
      assert r == EmitDays(g, days, day);
      assert r.details[..|g.details|] == r.details[..|g1.details|][..|g.details|];
    }
  }

  /** The details the day loop inserts from day `day` on record, in
      order, the details drawn on those days. */
  lemma {:induction false} EmitDaysDetailRows(g: Gen, days: seq<DayDraw>, day: nat)
    requires day <= |days| && DaysChoicesInRange(days)
    ensures var ds := AllDetails(OrdersFrom(days, day));
      forall i :: 0 <= i < |ds| ==> DetailAt(g, EmitDays(g, days, day), ds, i)
    decreases |days| - day
  {
    if day < |days| {
      var g1 := EmitOrders(g, day, days[day]);
      EmitOrdersDetailRows(g, day, days[day]);
      EmitDaysDetailRows(g1, days, day + 1);
      DetailsPrefix(g1, days, day + 1);
      DetailsFromStep(days, day);
      var r := EmitDays(g1, days, day + 1);
      assert r == EmitDays(g, days, day);
      var first, later := AllDetails(days[day]), AllDetails(OrdersFrom(days, day + 1));
      assert AllDetails(OrdersFrom(days, day)) == first + later;
      CombineDetails(g, g1, r, first, later);
    }
  }

  /** The units the detail loop of an order inserts record, in order, the
      unit flags drawn for its details. */
  lemma {:induction false} EmitDetailsUnitRows(g: Gen, ds: seq<DetailDraw>)
    ensures forall i :: 0 <= i < |UnitsOf(ds)| ==> UnitAt(g, EmitDetails(g, ds), UnitsOf(ds), i)
    decreases |ds|
  {
    if |ds| > 0 {
      var g1 := EmitDetail(g, ds[0]);
      EmitDetailsUnitRows(g1, ds[1..]);
      var r := EmitDetails(g1, ds[1..]);
      assert r == EmitDetails(g, ds);
      var first, later := ds[0].units, UnitsOf(ds[1..]);
      assert UnitsOf(ds) == first + later;
      forall i | 0 <= i < |first|
        ensures UnitAt(g, g1, first, i)
      {
        assert g1.units[|g.units| + i] == UnitRow(g.uid + i, g.odid, Bit(first[i]));
      }
      CombineUnits(g, g1, r, first, later);
    }
  }

  /** The unit rows inserted for one order record the unit flags drawn
      for its details. */
  lemma OrderUnitRows(g: Gen, day: int, o: OrderDraw)
    requires ChoicesInRange(o)
    ensures forall i :: 0 <= i < |UnitsOf(o.details)| ==>
              UnitAt(g, EmitOrder(g, day, o), UnitsOf(o.details), i)
  {
    var g0 := g.(orders := g.orders + [OrderRowOf(g.oid, day, o)]);
    EmitDetailsUnitRows(g0, o.details);
    var r0, r := EmitDetails(g0, o.details), EmitOrder(g, day, o);
    assert r.units == r0.units && g0.units == g.units;
    forall i | 0 <= i < |UnitsOf(o.details)|
      ensures UnitAt(g, r, UnitsOf(o.details), i)
    {
      assert UnitAt(g0, r0, UnitsOf(o.details), i);
    }
  }

  /** The units the order loop of a day inserts record, in order, the
      unit flags drawn for its details. */
  lemma {:induction false} EmitOrdersUnitRows(g: Gen, day: int, os: seq<OrderDraw>)
    requires AllChoicesInRange(os)
    ensures var us := UnitsOf(AllDetails(os));
      forall i :: 0 <= i < |us| ==> UnitAt(g, EmitOrders(g, day, os), us, i)
    decreases |os|
  {
    if |os| > 0 {
      var g1 := EmitOrder(g, day, os[0]);
      OrderUnitRows(g, day, os[0]);
      EmitOrdersUnitRows(g1, day, os[1..]);
      var r := EmitOrders(g1, day, os[1..]);
      assert r == EmitOrders(g, day, os);
      var first, later := UnitsOf(os[0].details), UnitsOf(AllDetails(os[1..]));
      assert AllDetails(os) == os[0].details + AllDetails(os[1..]);
      UnitsOfConcat(os[0].details, AllDetails(os[1..]));
      CombineUnits(g, g1, r, first, later);
    }
  }

  /** The day loop only appends unit rows. */
  lemma {:induction false} UnitsPrefix(g: Gen, days: seq<DayDraw>, day: nat)
    requires day <= |days| && DaysChoicesInRange(days)
    ensures var r := EmitDays(g, days, day);
      |g.units| <= |r.units| && r.units[..|g.units|] == g.units
    decreases |days| - day
  {
    if day < |days| {
      var g1 := EmitOrders(g, day, days[day]);
      UnitsPrefix(g1, days, day + 1);
      var r := EmitDays(g1, days, day + 1);
      assert r == EmitDays(g, days, day);
      assert r.units[..|g.units|] == r.units[..|g1.units|][..|g.units|];
    }
  }

  /** The units the day loop inserts from day `day` on record, in order,
      the unit flags drawn on those days. */
  lemma {:induction false} EmitDaysUnitRows(g: Gen, days: seq<DayDraw>, day: nat)
    requires day <= |days| && DaysChoicesInRange(days)
    ensures var us := UnitsOf(AllDetails(OrdersFrom(days, day)));
      forall i :: 0 <= i < |us| ==> UnitAt(g, EmitDays(g, days, day), us, i)
    decreases |days| - day
  {
    if day < |days| {
      var g1 := EmitOrders(g, day, days[day]);
      EmitOrdersUnitRows(g, day, days[day]);
      EmitDaysUnitRows(g1, days, day + 1);
      UnitsPrefix(g1, days, day + 1);
      UnitsFromStep(days, day);
      UnitsOfOrders(days[day]);
      var r := EmitDays(g1, days, day + 1);
      assert r == EmitDays(g, days, day);
      var first, later := UnitsOf(AllDetails(days[day])), UnitsOf(AllDetails(OrdersFrom(days, day + 1)));
      assert |g1.units| == |g.units| + |first|;
      CombineUnits(g, g1, r, first, later);
    }
  }
}
