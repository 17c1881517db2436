# ShipStation order splitting — a Dafny model

This project models the order-splitting logic of the ShipStation webhook service
(`controllers/shipstation.js`). When ShipStation reports new orders, `analyzeOrders`
looks at each order's line items, collects the distinct `orderItemId`s in order of first
occurrence, and, when an order has more than one, calls `splitShipstationOrder` and POSTs
the resulting array of order payloads to `orders/createorders` in one call.

`splitShipstationOrder` builds one payload per distinct id. Each payload is a shallow copy
of the order whose items are filtered down to that id and whose `orderNumber` is the
original number followed by `-1`, `-2`, … . Payload 0 is the update of the original order:
it keeps `orderId`, `orderKey` and the amounts, and it gets a warehouse tag chosen from its
first item (Ship-Emmaus 34317 when the item has a `warehouseLocation`, else Dropship-AMC
34550 for SKUs starting `DRA` or `DR2`, Dropship-Impact 34318 for `DRI`, Dropship-Trevco
34546 for `DRT`, else the tags stay). Every later payload is a new order: `orderKey` and
`orderId` are deleted and `amountPaid`, `taxAmount` and `shippingAmount` are set to 0.

Modules, one file each:

- `Wrappers` (`wrappers.dfy`): `Option` for JavaScript `null`/deleted properties, `Result` for thrown errors.
- `Decimal` (`decimal.dfy`): the decimal numeral of the payload's number.
- `Orders` (`orders.dfy`): the `Order` and `Item` records, the distinct-id collection, the item filter and the tag rules.
- `Splitter` (`splitter.dfy`): `splitShipstationOrder` as a method with a loop, its specification function `Split`, and the properties of a split; `SplitterExample` is a worked split.
- `Analyze` (`analyze.dfy`): the loop of `analyzeOrders` and the properties of what it submits.

Orders and items are values. The JavaScript spread `{ ...order }` makes a fresh copy whose
fields are then reassigned, and `filter` builds a new array, so the input order is never
changed; in the model this holds because `Order` is a datatype. The method
`SplitShipstationOrder` still updates its local copy `tempOrder` field by field, as the
source does. The POST is not performed. `AnalyzeOrders` returns the sequence of payload
arrays it would submit, in order, and an `Outcome` saying whether the loop finished or which
order's split threw. Its specification works in two layers. Each order first gets a
*verdict*: no split (at most one distinct id), a payload array, or the error its split
throws. `Run` then folds the loop over the verdicts, and the lemmas about `Run` are stated
once on verdicts and carried over to orders by `AnalyzeStopsAtFirstThrow` and `AnalyzePosts`.

An `orderItemId` of `null` is `None`. It is its own entry in the distinct list, as
`undefined` is in the JavaScript `Set`, and it matches no item when the items are filtered.
So splitting throws exactly when the order's first item has a `null` id. Then payload 0 has
no items, and reading `items[0].warehouseLocation` fails.

The code splits by `orderItemId` with numeric suffixes, tags only payload 0, and rethrows an
error on one order, which ends the loop.

## Model

| member | source | states |
|---|---|---|
| `Orders.Distinct` | controllers/shipstation.js:42-50 | the distinct list has no repetitions and holds exactly the values of the input |
| `Orders.DistinctInFirstOccurrenceOrder` | controllers/shipstation.js:42-50 | the distinct values are listed in the order of their first occurrence, as a `Set` iterates them |
| `Orders.ItemIds` | controllers/shipstation.js:44-48 | the mapped list has one key per item, the item's `orderItemId` (`None` for `null`) |
| `Orders.DistinctItemIds` | controllers/shipstation.js:42-50 | `orderItems`: the distinct ids of the order's items, `null` ids mapped to `None` |
| `Orders.DistinctItemIdsHead` | controllers/shipstation.js:42-50 | for a non-empty order, the first distinct id is the first item's id |
| `Orders.ItemsFor` | controllers/shipstation.js:90-92 | the filtered items are exactly the items of the group of the key, never more than the order has; a `null` key's group is empty |
| `Orders.ItemsForAppend` | controllers/shipstation.js:90-92 | the filter distributes over concatenation, so items keep their original relative order |
| `Orders.PrimaryTags` | controllers/shipstation.js:95-114 | payload 0's tags are either the original tags or exactly one of the four warehouse tags |
| `Orders.LookupPrefix` | controllers/shipstation.js:100-113 | table lookup returns the tag of the first row whose prefix starts the SKU, and `None` exactly when no prefix matches |
| `Orders.PrimaryTagsByTable` | controllers/shipstation.js:95-114 | the source's conditional chain equals "warehouse location first, then the first matching prefix of DRA, DR2, DRI, DRT, else keep the tags" |
| `Decimal.ToDecimal` | controllers/shipstation.js:86-87 | the numeral of a number is a non-empty string of digits without a leading zero |
| `Decimal.FromToDecimal` | controllers/shipstation.js:86-87 | reading the numeral back gives the number |
| `Decimal.ToDecimalInjective` | controllers/shipstation.js:86-87 | different numbers have different numerals |
| `Splitter.Payload` | controllers/shipstation.js:83-122 | the loop body for id x: a copy of the order numbered with suffix x+1 and holding that id's items; payload 0 takes its tag from its first item, later payloads lose `orderId` and `orderKey` and have zero amounts |
| `Splitter.Split` | controllers/shipstation.js:76-131 | the split throws exactly when there are ids and payload 0 has no items; otherwise it gives one payload per id |
| `Splitter.PayloadsAt` | controllers/shipstation.js:80-123 | the payload pushed in iteration x sits at position x of the array |
| `Splitter.SplitPayloads` | controllers/shipstation.js:83-122 | payload x is numbered original number + "-" + (x+1), holds exactly that id's items and keeps every other field; payload 0 has items, keeps `orderId`, `orderKey` and the amounts and takes its tags from its first item; every later payload has no `orderId` or `orderKey`, zero amounts and the original tags |
| `Splitter.SplitShipstationOrder` | controllers/shipstation.js:76-131 | the loop over the ids, copying the order and changing the copy field by field, returns exactly `Split`: the payload array, or the error of reading payload 0's first item |
| `Splitter.SplitFailsIffFirstIdNull` | controllers/shipstation.js:95-97 | splitting an order by its own distinct ids throws if and only if its first item has a `null` id |
| `Splitter.PayloadNumbersDistinct` | controllers/shipstation.js:85-87 | no two payloads of a split share an order number |
| `Splitter.SplitPartitionsItems` | controllers/shipstation.js:89-92 | the payloads' items together are, as a multiset, exactly the order's items with a non-`null` id: none lost, duplicated or invented |
| `SplitterExample.SampleIds` | controllers/shipstation.js:42-50 | the ids 11, 12, 11 give the distinct list 11, 12 |
| `SplitterExample.SampleGroups` | controllers/shipstation.js:90-92 | filtering by 11 keeps both id-11 items in order, filtering by 12 keeps the one id-12 item |
| `SplitterExample.SplitSample` | controllers/shipstation.js:83-122 | items with ids 11, 12, 11 give "1001-1" with both id-11 items and the AMC tag, and "1001-2" with the id-12 item, no `orderId`/`orderKey` and zero amounts |
| `Analyze.VerdictOf` | controllers/shipstation.js:39-59 | the `try` body on one order: when its split goes through, the payload array holds one payload per distinct item id of the order, and so at least two |
| `Analyze.Run` | controllers/shipstation.js:37-65 | the state after the first n iterations of the loop: the POST bodies so far and whether an order threw |
| `Analyze.Step` | controllers/shipstation.js:39-64 | one iteration: after a throw nothing changes; otherwise a split's payload array is submitted, or its error ends the loop |
| `Analyze.VerdictsAt` | controllers/shipstation.js:37-39 | iteration x of the loop works on order x |
| `Analyze.AnalyzeOrder` | controllers/shipstation.js:39-59 | the body of the `try` block, computing the distinct ids and calling the split method when there are more than one, returns exactly the verdict of order x |
| `Analyze.AnalyzeOrders` | controllers/shipstation.js:35-66 | the loop returns exactly `Run` of the orders' verdicts: the payload arrays it submits and where it stopped |
| `Analyze.RunAfterAbort` | controllers/shipstation.js:61-64 | once an order has thrown, no later order changes the result |
| `Analyze.RunStopsAtFirstThrow` | controllers/shipstation.js:37-64 | the loop stops at the first verdict that throws and reports its position and error; no verdict before it throws |
| `Analyze.RunPosts` | controllers/shipstation.js:53-59 | the submitted bodies are the POSTs of the verdicts before the stop, in order |
| `Analyze.AnalyzeStopsAtFirstThrow` | controllers/shipstation.js:35-66 | `analyzeOrders` stops at the first order whose split throws, with that order's error; every order before it goes through |
| `Analyze.AnalyzePosts` | controllers/shipstation.js:35-66 | `analyzeOrders` submits the POSTs of the orders before the stop, each with at least two payloads |
| `Analyze.PostsOfOne` | controllers/shipstation.js:53-59 | an order with more than one distinct id whose split does not throw gives exactly one POST carrying its whole payload array; any other order gives none |
| `Analyze.PostsAppend` | controllers/shipstation.js:37-60 | the POSTs for a batch are the POSTs for its parts, in order |
| `Analyze.PostsAreSplits` | controllers/shipstation.js:53-59 | when every split has at least two payloads, so does every POST |
| `Analyze.CompletesWhenFirstIdPresent` | controllers/shipstation.js:61-64 | an order whose first item has an id never stops the loop |

## Left out

- `shipstationApiCall` (lines 142-164): it is an HTTP call through axios with an API key read from the environment. The POST is modelled as the returned sequence of submitted payload arrays.
- The `console.error` calls (lines 62 and 125) are logging and are not modelled. The error the loop ends with is reduced to its cause: `MissingPrimaryItem` stands for the `TypeError` of line 97, which the source wraps in `new Error(err)` twice (lines 126 and 63).
- A failed or rejected POST: in the source it would also end the loop, but network failure is not modelled.
- `newOrders` (lines 6-28): the Express request and response handling and the GET of the order list. The call to `analyzeOrders` there is not awaited; that is async scheduling and is not modelled.
- `app.js`: the server set-up, the file upload, the tab-separated parsing and the write of `upload/inventory.json` are I/O with no decision logic.
- `null` and `undefined` ids are both `None`. A `None` key matches no item. In JavaScript, the `undefined` key of a `null` id would match items whose `orderItemId` property is missing.
- `warehouseLocation` is `None` only for `null`; an absent (`undefined`) location would also count as a location, and this case is not distinguished.
- A `null` SKU is not modelled. `startsWith` on it would throw.
- Amounts are integers. The code only copies them or sets them to 0, so their numeric type plays no part.
- `otherFields` is a string-to-string map. It stands for every other property of the order, which is only copied.
