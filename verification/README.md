# audit-rebate: the seed generator and result shaping, in Dafny

audit-rebate fills a SQLite store with synthetic order data and runs one
parametrized audit/rebate query over it. Its only real logic is the loop
nest of `seed()`. For each of 75 days it draws 10 to 40 orders. Each order
gets 1 to 4 order details, and each detail gets 1 to 5 units. Rows go
into three tables ("order", orderdetail, orderdetailunit) linked by
foreign keys. Three counters (`oid`, `odid`, `u_id`) supply the ids.
The second piece is `run_report()`'s shaping of the query result. An
empty result is replaced by one row of zeros.

This project models both as pure functions and proves what the code
guarantees about them.

- `rows.dfy` (module `Rows`): the three row records, the partner and type
  label lists, and the `1 if draw else 0` flag encoding. It also holds the
  key columns of each table: order dates, detail parents and unit parents.
- `draws.dfy` (module `Draws`): the random draws as an explicit tree.
  It also holds the `randint` bounds and the draw counts per day. It
  flattens the tree into draw order: all orders, all details, and all
  unit flags.
- `keys.dfy` (module `Keys`): occurrence counts, ordering and ranges of a
  key column.
- `generator.dfy` (module `Generator`): the loop nest. There is one
  recursive function per loop level. Each threads the tables and the
  three counters (`Gen`).
- `integrity.dfy` (module `Integrity`): the loop invariants. Each insert
  and each loop pass preserves them. Phase predicates tie each counter to
  its table's length: between orders, inside an order's detail loop, and
  inside a detail's unit loop.
- `child_counts.dfy` (module `ChildCounts`): exact child counts. After
  each loop level, every parent has exactly as many children as were drawn
  for it, and all other parents keep their counts.
- `drawn_flags.dfy` (module `DrawnFlags`): which draw each orderdetail and
  unit row records. The i-th row inserted carries the flags of the i-th
  draw of its kind.
- `seed_properties.dfy` (module `SeedProperties`): the guarantees for a
  complete run of `seed()`.
- `report.dfy` (module `Report`): the data frame and the
  empty-result substitution.

Modelling choices:
- Each `random() < p` test is a given boolean. Each `random.choice` is a
  given index into its three-element list. Each `randint` is the length of
  a given list, and `WellFormed` states the bounds `randint` guarantees.
- The creation timestamp `start + timedelta(days=day)` is kept as the day
  offset `createdDay` from the anchor date 2024-03-15.
- A query result is a `Frame` of column names and rows of cells. As with a
  pandas data frame, it is empty when it has no rows or no columns.

## Model

| member | source | states |
|---|---|---|
| Generator.EmitUnits | app.py:80-86 | The unit loop adds exactly one orderdetailunit row per drawn flag. The ids are consecutive from the current `u_id`. Every row refers to the current `odid`, and its cancel column encodes its draw. `u_id` advances by the number of units. Rows already present and the other tables and counters are unchanged. |
| Generator.EmitDetail | app.py:69-88 | One detail-loop pass appends exactly one orderdetail row. That row has id `odid`, refers to the current `oid`, and carries the three drawn flags. The pass then appends that detail's units, all referring to the new detail id, and advances `odid` by one. "order" and `oid` are unchanged. |
| Generator.EmitDetails | app.py:69-88 | The detail loop adds one orderdetail row per draw. The ids are consecutive from `odid`, and every row refers to the current order. The units added equal the units drawn. Earlier rows are kept and the order table is untouched. |
| Generator.EmitOrder | app.py:58-90 | One order-loop pass appends exactly one order row built from the draws and dated by the day offset. That row carries the current `oid` and the drawn partner, type and cancel flag. The pass then adds that order's details, all referring to it, and advances `oid` by one. |
| Generator.EmitOrders | app.py:58-90 | The order loop of a day adds one order row per draw. `oid` advances by the number of orders drawn. The details and units added equal the number drawn, and earlier rows of every table are kept. |
| Generator.EmitOrdersRows | app.py:58-66 | The i-th order row the order loop of a day adds is built from the i-th draw of that day, in draw order. It has id `oid + i` and is dated that day. |
| Generator.EmitDays | app.py:56-90 | The day loop adds, to each table, exactly as many rows as were drawn of that kind on the remaining days. Each counter advances by the same amount. Earlier order rows are kept. |
| Generator.Seed | app.py:46-90 | A full run ends with one order, detail and unit row per draw of that kind over the 75 days. Each counter ends one past its table's row count. |
| Integrity.InsertUnit | app.py:81-86 | Inserting a unit row under the current detail keeps every table invariant. That detail's unit count rises by one, and every other detail's count is unchanged. |
| Integrity.InsertDetail | app.py:70-77 | Inserting a detail row under the current order keeps every table invariant. Only that order's detail count rises by one. The new detail starts with no units. |
| Integrity.InsertOrder | app.py:59-66 | Inserting an order row keeps every table invariant and moves the counters into the detail-loop phase. The new order starts with no details. |
| Integrity.FinishDetail | app.py:88 | Advancing `odid` after a detail with 1 to 5 units keeps every finished detail within those bounds. |
| Integrity.FinishOrder | app.py:90 | Advancing `oid` after an order with 1 to 4 details keeps every finished order within those bounds. |
| Integrity.EmitUnitsKeeps | app.py:79-86 | The unit loop keeps the invariants. For every key, the unit count of the detail inserted immediately before the loop grows by the number of draws. Every other detail's count is unchanged. |
| Integrity.UnitsReferLatestDetail | app.py:80-85 | Every unit the unit loop inserts refers to the orderdetail row inserted last, so its parent row already exists when it is written. |
| Integrity.EmitDetailKeeps | app.py:69-88 | A detail-loop pass keeps the invariants. The detail count of the order inserted last rises by one, and no other order's count changes. |
| Integrity.EmitDetailsKeeps | app.py:68-88 | The detail loop keeps the invariants. The detail count of the order inserted last grows by the number of draws, and no other order's count changes. |
| Integrity.DetailsReferLatestOrder | app.py:69-77 | Every orderdetail the detail loop inserts refers to the order row inserted last, so its parent row already exists when it is written. |
| Integrity.EmitOrderKeeps | app.py:58-90 | An order-loop pass keeps the invariants. These are: ids from 1, 0/1 columns, valid labels, existing and non-decreasing parents, and bounded child counts. Each counter is again one past its table's length. |
| Integrity.EmitOrdersKeeps | app.py:58-90 | The order loop of a day keeps the invariants and dates every order it inserts that day. Order dates stay non-decreasing. That day's order count grows by the number of draws, and no other day's count changes. |
| Integrity.DayStep | app.py:56-90 | One pass of the day loop keeps the invariants. Afterwards every order is dated on or before that day, dates stay non-decreasing, and that day and all earlier days have 10 to 40 orders each. |
| Integrity.EmitDaysConsistent | app.py:56-90 | The day loop keeps the invariants. When it ends, every order is dated within the drawn days in non-decreasing order, and every day has 10 to 40 orders. |
| SeedProperties.SeedConsistent | app.py:46-90 | After a full run, all loop invariants hold, each counter is one past its table, and dates lie in days 0 to 74 in non-decreasing order. |
| SeedProperties.SeedIdsContiguous | app.py:51-90 | In each table the ids are 1, 2, 3, … in insertion order. Each final counter minus one equals its table's row count. |
| SeedProperties.SeedDetailsReferenceOrders | app.py:63-77 | Every orderdetail's orderid is the id of an existing order row. |
| SeedProperties.SeedUnitsReferenceDetails | app.py:74-85 | Every orderdetailunit's orderdetailid is the id of an existing orderdetail row. |
| SeedProperties.SeedNoChildlessParents | app.py:69-80 | Every order row has at least one orderdetail referring to it. Every orderdetail row has at least one unit referring to it. |
| SeedProperties.SeedChildBlocksContiguous | app.py:68-90 | The details of one order occupy one contiguous block of rows, and so of ids. The units of one detail do too. |
| SeedProperties.SeedCardinalities | app.py:56-80 | Every order has 1 to 4 details and every detail has 1 to 5 units. Each of the 75 days has 10 to 40 orders. |
| SeedProperties.SeedColumnDomains | app.py:48-81 | Every cancel, mug and sticker column is 0 or 1. The partner is teepublicvip, printify or acme. The type is standard or reprint. |
| SeedProperties.EmitDaysOrderRows | app.py:56-66 | From any starting state, the day loop puts the j-th order drawn on day d right after the orders of the earlier days. That order is dated d and gets the id the counter held when it was drawn. |
| SeedProperties.SeedOrderRow | app.py:56-66 | The j-th order drawn on day d is order row number OrdersBefore(d)+j+1, with that number as its id. It is dated d days after the anchor and carries its drawn cancel flag, type and partner. |
| SeedProperties.SeedOrderDates | app.py:56-66 | Every order is dated within the 75 drawn days, and order dates never decrease as order ids grow. |
| ChildCounts.EmitUnitsCounted | app.py:80-86 | For every key, the unit loop raises the unit count of the current `odid` by the number of units drawn. Every other key's count is unchanged. |
| ChildCounts.EmitDetailCounted | app.py:69-88 | One detail-loop pass raises the current order's detail count by one and leaves every other order's count alone. It raises the new detail's unit count by the units drawn for it and leaves every other detail's count alone. |
| ChildCounts.EmitDetailsCounted | app.py:69-88 | The detail loop raises the current order's detail count by the number of details drawn. Every other order's count is unchanged. |
| ChildCounts.EmitDetailsUnitsCounted | app.py:69-88 | The detail loop gives the i-th new detail, id `odid + i`, exactly the units drawn for the i-th detail. Every other detail's unit count is unchanged. |
| ChildCounts.EmitOrderCounted | app.py:58-90 | One order-loop pass gives the new order, id `oid`, exactly as many details as were drawn for it. Each of its new details gets exactly its drawn units. No other parent's count changes. |
| ChildCounts.EmitOrdersCounted | app.py:58-90 | The order loop of a day gives the i-th new order, id `oid + i`, exactly as many details as the i-th order drawn that day. No other order's count changes. |
| ChildCounts.EmitOrdersUnitsCounted | app.py:58-90 | The order loop of a day gives the i-th new detail exactly the units drawn for the i-th detail of that day, in draw order. No other detail's count changes. |
| ChildCounts.EmitDaysCounted | app.py:56-90 | The day loop gives the i-th order it inserts exactly as many details as the i-th order drawn from that day on. No earlier order's count changes. |
| ChildCounts.EmitDaysUnitsCounted | app.py:56-90 | The day loop gives the i-th detail it inserts exactly the units drawn for the i-th detail from that day on. No earlier detail's count changes. |
| SeedProperties.SeedDetailCounts | app.py:56-90 | After a full run there is one order row per order drawn. Order k is the parent of exactly as many orderdetails as the k-th order drawn. |
| SeedProperties.SeedUnitCounts | app.py:56-90 | After a full run there is one orderdetail row per detail drawn. Orderdetail k is the parent of exactly as many units as the k-th detail drawn. |
| SeedProperties.SeedOrderDetailCount | app.py:56-77 | The j-th order drawn on day d, which is order row OrdersBefore(d)+j+1, has exactly the number of orderdetails drawn for it. |
| DrawnFlags.OrderDetailRows | app.py:69-77 | The orderdetail rows of one order carry, in draw order, the cancel, mug and sticker flags drawn for its details. |
| DrawnFlags.EmitOrdersDetailRows | app.py:58-90 | The i-th orderdetail row the order loop of a day inserts carries the flags of the i-th detail drawn that day. |
| DrawnFlags.DetailsPrefix | app.py:56-90 | The day loop only appends orderdetail rows. Rows already present keep their positions and contents. |
| DrawnFlags.EmitDaysDetailRows | app.py:56-90 | The i-th orderdetail row the day loop inserts carries the flags of the i-th detail drawn from that day on. |
| DrawnFlags.EmitDetailsUnitRows | app.py:69-88 | The i-th unit row the detail loop inserts carries the cancel flag of the i-th unit drawn for that order's details. |
| DrawnFlags.OrderUnitRows | app.py:58-90 | The unit rows of one order carry, in draw order, the cancel flags drawn for its units. |
| DrawnFlags.EmitOrdersUnitRows | app.py:58-90 | The i-th unit row the order loop of a day inserts carries the cancel flag of the i-th unit drawn that day. |
| DrawnFlags.UnitsPrefix | app.py:56-90 | The day loop only appends unit rows. Rows already present keep their positions and contents. |
| DrawnFlags.EmitDaysUnitRows | app.py:56-90 | The i-th unit row the day loop inserts carries the cancel flag of the i-th unit drawn from that day on. |
| SeedProperties.SeedDetailFlags | app.py:69-77 | After a full run there is one orderdetail row per detail drawn. Row i carries the cancel, mug and sticker flags of the i-th detail drawn. |
| SeedProperties.SeedUnitFlags | app.py:80-86 | After a full run there is one unit row per unit drawn. Row i carries the cancel flag of the i-th unit drawn. |
| Report.AuditResult | app.py:111-118 | Any empty result becomes exactly one row with numOrdersRecv 0, numUnitsRecv 0 and TotalRebate 0.0. Any non-empty result is returned unchanged. The shaped result is never empty, and a well-shaped result stays well-shaped. |

## Left out

- SQLite connection, schema creation, `INSERT` execution and `commit` (app.py:12-44, 92-93) are database I/O. The model returns the row sequences that would be inserted, in insertion order.
- The Mersenne Twister behind `random.seed(21)`, `randint`, `choice` and `random()` is a foreign library. Its draws are inputs, and each float threshold test (0.05, 0.03, 0.10, 0.06, 0.04) is a given boolean. So the model says nothing about probabilities, or about which dataset seed 21 produces.
- `datetime`/`timedelta` arithmetic and `isoformat()` rendering are left out. A date is its integer day offset from 2024-03-15.
- Removing an existing database file, and the lazy seed when the file is missing in `run_report`, are file-system effects (app.py:10-11, 98-99).
- Reading `report.sql` and executing it through pandas (app.py:101-106) is left out. The query text is not part of this model, so its filters and rebate formula are unknown. Its output is the opaque `Frame` given to `AuditResult`.
- Console printing, CSV writing and the argparse command line with its defaults (app.py:94, 108-110, 114, 117, 120-143) are output and interface plumbing.
