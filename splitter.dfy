/**
 * `splitShipstationOrder`: one payload per distinct `orderItemId`, each a shallow
 * copy of the order with a numbered `orderNumber` and only that id's items; the
 * first payload is the update of the original order and gets a warehouse tag, the
 * others are new orders without identity and with zero amounts.
 */
module Splitter {
  import opened Wrappers
  import opened Decimal
  import opened Orders

  /** The only error the loop body can throw: reading `items[0]` of an empty primary payload. */
  datatype SplitError = MissingPrimaryItem

  /** The order number of payload `x`: the original number, a dash and `x + 1`. */
  function Numbered(orderNumber: string, x: nat): string {
    orderNumber + "-" + ToDecimal(x + 1)
  }

  /** Payload `x` of the split of `order` by `orderItems` (the loop body, lines 83-122). */
  function Payload(order: Order, orderItems: seq<Option<ItemId>>, x: nat): Order
    requires x < |orderItems|
    requires x == 0 ==> ItemsFor(order.items, orderItems[0]) != []
  {
    var items := ItemsFor(order.items, orderItems[x]);
    var numbered := order.(orderNumber := Numbered(order.orderNumber, x), items := items);
    if x == 0 then
      numbered.(tagIds := PrimaryTags(items[0], order.tagIds))
    else
      numbered.(orderId := None, orderKey := None, amountPaid := 0, taxAmount := 0, shippingAmount := 0)
  }

  /** What `splitShipstationOrder(order, orderItems)` returns, or the error it throws. */
  function Split(order: Order, orderItems: seq<Option<ItemId>>): (r: Result<seq<Order>, SplitError>)
    ensures r.Failure? <==> |orderItems| > 0 && ItemsFor(order.items, orderItems[0]) == []
    ensures r.Success? ==> |r.value| == |orderItems|
  {
    if |orderItems| > 0 && ItemsFor(order.items, orderItems[0]) == [] then Failure(MissingPrimaryItem)
    else Success(Payloads(order, orderItems, |orderItems|))
  }

  /** The first `n` payloads, in the order they are pushed. */
  function Payloads(order: Order, orderItems: seq<Option<ItemId>>, n: nat): (ps: seq<Order>)
    requires n <= |orderItems|
    requires n > 0 ==> ItemsFor(order.items, orderItems[0]) != []
    ensures |ps| == n
  {
    if n == 0 then [] else Payloads(order, orderItems, n - 1) + [Payload(order, orderItems, n - 1)]
  }

  lemma {:induction false} PayloadsAt(order: Order, orderItems: seq<Option<ItemId>>, n: nat, x: nat)
    requires x < n <= |orderItems|
    requires ItemsFor(order.items, orderItems[0]) != []
    ensures Payloads(order, orderItems, n)[x] == Payload(order, orderItems, x)
    decreases n
  {
    if x < n - 1 {
      PayloadsAt(order, orderItems, n - 1, x);
    }
  }

  /** The payloads of a split, field by field. */
  lemma SplitPayloads(order: Order, orderItems: seq<Option<ItemId>>)
    requires Split(order, orderItems).Success?
    ensures var ps := Split(order, orderItems).value;
            forall x :: 0 <= x < |ps| ==>
              ps[x].orderNumber == order.orderNumber + "-" + ToDecimal(x + 1)
              && ps[x].items == ItemsFor(order.items, orderItems[x])
              && ps[x].otherFields == order.otherFields
    ensures var ps := Split(order, orderItems).value;
            |ps| > 0 ==>
              ps[0].items != []
              && ps[0].tagIds == PrimaryTags(ps[0].items[0], order.tagIds)
              && ps[0].orderId == order.orderId && ps[0].orderKey == order.orderKey
              && ps[0].amountPaid == order.amountPaid && ps[0].taxAmount == order.taxAmount
              && ps[0].shippingAmount == order.shippingAmount
    ensures var ps := Split(order, orderItems).value;
            forall x :: 1 <= x < |ps| ==>
              ps[x].orderId.None? && ps[x].orderKey.None?
              && ps[x].amountPaid == 0 && ps[x].taxAmount == 0 && ps[x].shippingAmount == 0
              && ps[x].tagIds == order.tagIds
  {
    forall x | 0 <= x < |orderItems|
      ensures Split(order, orderItems).value[x] == Payload(order, orderItems, x)
    {
      PayloadsAt(order, orderItems, |orderItems|, x);
    }
  }

  /** The loop of `splitShipstationOrder`, copying and changing `tempOrder` field by field. */
  method SplitShipstationOrder(order: Order, orderItems: seq<Option<ItemId>>)
    returns (r: Result<seq<Order>, SplitError>)
    ensures r == Split(order, orderItems)
  {
    var orderUpdateArray: seq<Order> := [];
    var x := 0;
    while x < |orderItems|
      invariant 0 <= x <= |orderItems|
      invariant x > 0 ==> ItemsFor(order.items, orderItems[0]) != []
      invariant orderUpdateArray == Payloads(order, orderItems, x)
    {
      var tempOrder := order;
      var y := x + 1;
      tempOrder := tempOrder.(orderNumber := tempOrder.orderNumber + "-" + ToDecimal(y));
      tempOrder := tempOrder.(items := ItemsFor(tempOrder.items, orderItems[x]));
      if x == 0 {
        if |tempOrder.items| == 0 {
          return Failure(MissingPrimaryItem);
        }
        tempOrder := tempOrder.(tagIds := PrimaryTags(tempOrder.items[0], tempOrder.tagIds));
      }
      if x != 0 {
        tempOrder := tempOrder.(orderKey := None, orderId := None);
        tempOrder := tempOrder.(amountPaid := 0, taxAmount := 0, shippingAmount := 0);
      }
      orderUpdateArray := orderUpdateArray + [tempOrder];
      x := x + 1;
    }
    r := Success(orderUpdateArray);
  }

  // ---------------------------------------------------------------------------
  // Properties of the split of an order by its own distinct item ids
  // ---------------------------------------------------------------------------

  /** Splitting an order by its distinct ids throws exactly when its first item has a `null` id. */
  lemma SplitFailsIffFirstIdNull(order: Order)
    ensures Split(order, DistinctItemIds(order.items)).Failure?
        <==> |order.items| > 0 && order.items[0].orderItemId.None?
  {
    var ids := DistinctItemIds(order.items);
    if |order.items| > 0 {
      DistinctItemIdsHead(order.items);
      var primary := ItemsFor(order.items, ids[0]);
      if order.items[0].orderItemId.Some? {
        assert order.items[0] in primary;
      }
    } else {
      assert ItemIds(order.items) == [];
    }
  }

  /** No two payloads share an order number. */
  lemma PayloadNumbersDistinct(order: Order, orderItems: seq<Option<ItemId>>)
    requires Split(order, orderItems).Success?
    ensures var ps := Split(order, orderItems).value;
            forall i, j :: 0 <= i < j < |ps| ==> ps[i].orderNumber != ps[j].orderNumber
  {
    var ps := Split(order, orderItems).value;
    SplitPayloads(order, orderItems);
    forall i, j | 0 <= i < j < |ps|
      ensures ps[i].orderNumber != ps[j].orderNumber
    {
      var p := order.orderNumber + "-";
      if ps[i].orderNumber == ps[j].orderNumber {
        assert ps[i].orderNumber[|p|..] == ToDecimal(i + 1);
        assert ps[j].orderNumber[|p|..] == ToDecimal(j + 1);
        ToDecimalInjective(i + 1, j + 1);
      }
    }
  }

  /** The items with a non-`null` id, the ones that land in some payload. */
  function Identified(items: seq<Item>): (r: seq<Item>)
    ensures forall it :: it in r <==> it in items && it.orderItemId.Some?
  {
    if |items| == 0 then []
    else
      var last := items[|items| - 1];
      Identified(items[..|items| - 1]) + (if last.orderItemId.Some? then [last] else [])
  }

  /** The concatenation of a sequence of item lists. */
  function Flatten(groups: seq<seq<Item>>): seq<Item> {
    if |groups| == 0 then [] else Flatten(groups[..|groups| - 1]) + groups[|groups| - 1]
  }

  /** The item lists of the payloads. */
  function ItemsOf(payloads: seq<Order>): seq<seq<Item>> {
    seq(|payloads|, x requires 0 <= x < |payloads| => payloads[x].items)
  }

  /** The items of every group of `keys`, group after group. */
  function Grouped(items: seq<Item>, keys: seq<Option<ItemId>>): seq<Item> {
    if |keys| == 0 then [] else Grouped(items, keys[..|keys| - 1]) + ItemsFor(items, keys[|keys| - 1])
  }

  lemma {:induction false} GroupedSnocItem(items: seq<Item>, it: Item, keys: seq<Option<ItemId>>)
    requires NoDuplicates(keys)
    ensures multiset(Grouped(items + [it], keys))
         == multiset(Grouped(items, keys))
            + (if it.orderItemId.Some? && it.orderItemId in keys then multiset{it} else multiset{})
    decreases |keys|
  {
    if |keys| > 0 {
      var init, k := keys[..|keys| - 1], keys[|keys| - 1];
      GroupedSnocItem(items, it, init);
      assert (items + [it])[..|items + [it]| - 1] == items;
      assert ItemsFor(items + [it], k) == ItemsFor(items, k) + (if InGroup(it, k) then [it] else []);
      assert it.orderItemId in keys <==> it.orderItemId in init || it.orderItemId == k;
      assert k !in init;
    }
  }

  /** Grouping by a duplicate-free list of keys that covers every id puts each identified
      item into exactly one group. */
  lemma {:induction false} GroupedIsPartition(items: seq<Item>, keys: seq<Option<ItemId>>)
    requires NoDuplicates(keys)
    requires forall it :: it in items ==> it.orderItemId in keys
    ensures multiset(Grouped(items, keys)) == multiset(Identified(items))
    decreases |items|
  {
    if |items| == 0 {
      assert forall k :: k in keys ==> ItemsFor(items, k) == [];
      GroupedOfNoItems(keys);
    } else {
      var init, last := items[..|items| - 1], items[|items| - 1];
      assert items == init + [last];
      GroupedIsPartition(init, keys);
      GroupedSnocItem(init, last, keys);
    }
  }

  lemma {:induction false} GroupedOfNoItems(keys: seq<Option<ItemId>>)
    ensures Grouped([], keys) == []
    decreases |keys|
  {
    if |keys| > 0 {
      GroupedOfNoItems(keys[..|keys| - 1]);
    }
  }

  lemma {:induction false} FlattenItemsOf(order: Order, orderItems: seq<Option<ItemId>>)
    requires Split(order, orderItems).Success?
    ensures Flatten(ItemsOf(Split(order, orderItems).value)) == Grouped(order.items, orderItems)
    decreases |orderItems|
  {
    var n := |orderItems|;
    if n > 0 {
      var init := orderItems[..n - 1];
      assert init == [] || init[0] == orderItems[0];
      FlattenItemsOf(order, init);
      var g, gi := ItemsOf(Split(order, orderItems).value), ItemsOf(Split(order, init).value);
      forall i | 0 <= i < n - 1 ensures g[i] == gi[i] {
        PayloadsAt(order, orderItems, n, i);
        PayloadsAt(order, init, n - 1, i);
      }
      assert g[..n - 1] == gi;
      PayloadsAt(order, orderItems, n, n - 1);
    }
  }

  /** The payloads of an order split by its distinct ids partition its identified items:
      none is lost, none is duplicated, none is invented. */
  lemma SplitPartitionsItems(order: Order)
    requires Split(order, DistinctItemIds(order.items)).Success?
    ensures multiset(Flatten(ItemsOf(Split(order, DistinctItemIds(order.items)).value)))
         == multiset(Identified(order.items))
  {
    var keys := DistinctItemIds(order.items);
    forall it | it in order.items ensures it.orderItemId in keys {
      var i :| 0 <= i < |order.items| && order.items[i] == it;
      assert ItemIds(order.items)[i] == it.orderItemId;
    }
    FlattenItemsOf(order, keys);
    GroupedIsPartition(order.items, keys);
  }
}

/** A worked split: two AMC lines with id 11 around a Trevco line with id 12. */
module SplitterExample {
  import opened Wrappers
  import opened Decimal
  import opened Orders
  import opened Splitter

  const Amc: Item := Item(Some(11), "DRA-1", None)
  const Trevco: Item := Item(Some(12), "DRT-5", None)
  const Sample: Order := Order(Some(7), Some("k"), "1001", [Amc, Trevco, Amc], [], 50, 5, 10, map[])

  lemma SampleIds()
    ensures DistinctItemIds(Sample.items) == [Some(11), Some(12)]
  {
    var ids := ItemIds(Sample.items);
    var one: seq<Option<ItemId>>, two: seq<Option<ItemId>> := [Some(11)], [Some(11), Some(12)];
    assert ids == two + [Some(11)];
    assert one[..0] == [];
    assert Distinct(one) == one;
    assert two[..1] == one;
    assert Distinct(two) == two;
    assert ids[..2] == two;
  }

  lemma SampleGroups()
    ensures ItemsFor(Sample.items, Some(11)) == [Amc, Amc]
    ensures ItemsFor(Sample.items, Some(12)) == [Trevco]
  {
    var items := Sample.items;
    assert items[..2] == [Amc, Trevco] && items[..2][..1] == [Amc] && [Amc][..0] == [];
    assert ItemsFor([Amc], Some(12)) == [];
    assert ItemsFor([Amc, Trevco], Some(12)) == [Trevco];
    assert ItemsFor([Amc], Some(11)) == [Amc];
    assert ItemsFor([Amc, Trevco], Some(11)) == [Amc];
  }

  lemma SampleNumbers()
    ensures ToDecimal(1) == "1" && ToDecimal(2) == "2"
  {
  }

  lemma SplitSample()
    ensures Split(Sample, [Some(11), Some(12)]).Success?
    ensures var ps := Split(Sample, [Some(11), Some(12)]).value;
            |ps| == 2
            && ps[0].orderNumber == "1001-1" && ps[0].items == [Amc, Amc] && ps[0].tagIds == [TagDropshipAmc]
            && ps[0].orderId == Some(7) && ps[0].amountPaid == 50
            && ps[1].orderNumber == "1001-2" && ps[1].items == [Trevco] && ps[1].tagIds == []
            && ps[1].orderId == None && ps[1].orderKey == None
            && ps[1].amountPaid == 0 && ps[1].taxAmount == 0 && ps[1].shippingAmount == 0
  {
    var keys: seq<Option<ItemId>> := [Some(11), Some(12)];
    SampleGroups();
    SampleNumbers();
    SplitPayloads(Sample, keys);
  }
}
