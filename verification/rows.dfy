/** Row records of the three tables the generator fills ("order",
    orderdetail, orderdetailunit), with the columns of the schema. The
    0/1 integer columns stay integers, as they are stored. */
module Rows {

  /** Partner labels an order's CustomPartnerId is chosen from. */
  const Partners: seq<string> := ["teepublicvip", "printify", "acme"]

  /** Order types; "standard" appears twice so that a uniform choice
      favours it two to one. */
  const OrderTypes: seq<string> := ["standard", "standard", "reprint"]

  /** A row of "order". The creation timestamp is kept as a day offset:
      `createdDay` days after the anchor date 2024-03-15. */
  datatype OrderRow = OrderRow(id: int, createdDay: int, isCancelled: int,
                               orderType: string, partnerId: string)

  /** A row of orderdetail; `orderId` refers to "order".id. */
  datatype DetailRow = DetailRow(id: int, orderId: int, isCancelled: int,
                                 isMugPrint: int, isStickerPrint: int)

  /** A row of orderdetailunit; `detailId` refers to orderdetail.id. */
  datatype UnitRow = UnitRow(id: int, detailId: int, isCancelled: int)

  /** A 0/1 column value. */
  predicate IsFlag(x: int) {
    x == 0 || x == 1
  }

  /** The `1 if <draw> else 0` encoding of a drawn flag. */
  function Bit(b: bool): (r: int)
    ensures IsFlag(r)
    ensures r == 1 <==> b
  {
    if b then 1 else 0
  }

  /** The createdDay column of "order". */
  function OrderDays(os: seq<OrderRow>): seq<int> {
    seq(|os|, i requires 0 <= i < |os| => os[i].createdDay)
  }

  /** The orderid column of orderdetail. */
  function DetailParents(ds: seq<DetailRow>): seq<int> {
    seq(|ds|, i requires 0 <= i < |ds| => ds[i].orderId)
  }

  /** The orderdetailid column of orderdetailunit. */
  function UnitParents(us: seq<UnitRow>): seq<int> {
    seq(|us|, i requires 0 <= i < |us| => us[i].detailId)
  }
}
