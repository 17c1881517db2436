/**
 * The ShipStation order and item records the splitter reads, the distinct
 * `orderItemId`s of an order, the filter of an order's items by one id, and the
 * tag chosen for the primary payload from its first item.
 */
module Orders {
  import opened Wrappers

  type ItemId = int

  /** An order line. `orderItemId` is `None` when the webhook payload carries `null`;
      `warehouseLocation` is `None` for `null`. */
  datatype Item = Item(orderItemId: Option<ItemId>, sku: string, warehouseLocation: Option<string>)

  /**
   * An order as returned by the ShipStation API. `orderId` and `orderKey` are `None`
   * once deleted; `otherFields` stands for every other property of the order object,
   * which the shallow copy carries over unchanged.
   */
  datatype Order = Order(
    orderId: Option<int>,
    orderKey: Option<string>,
    orderNumber: string,
    items: seq<Item>,
    tagIds: seq<int>,
    amountPaid: int,
    taxAmount: int,
    shippingAmount: int,
    otherFields: map<string, string>)

  // ---------------------------------------------------------------------------
  // Distinct item ids (lines 42-50): the item ids, with `null` mapped to `undefined`,
  // put through a `Set` and spread back into an array
  // ---------------------------------------------------------------------------

  predicate NoDuplicates<T(==)>(s: seq<T>) {
    forall i, j :: 0 <= i < j < |s| ==> s[i] != s[j]
  }

  /** The position of the first occurrence of `x` in `s`. */
  function FirstIndex<T(==)>(s: seq<T>, x: T): (k: nat)
    requires x in s
    ensures k < |s| && s[k] == x
    ensures forall j :: 0 <= j < k ==> s[j] != x
  {
    if s[0] == x then 0 else 1 + FirstIndex(s[1..], x)
  }

  lemma FirstIndexOfPrefix<T>(s: seq<T>, n: nat, x: T)
    requires n <= |s| && x in s[..n]
    ensures FirstIndex(s, x) == FirstIndex(s[..n], x)
  {
    var a, b := FirstIndex(s, x), FirstIndex(s[..n], x);
    assert s[b] == x;
    assert a <= b;
    assert s[..n][a] == x;
  }

  /** The values of `s` without repetitions, in the order a JavaScript `Set` iterates them:
      the order of first insertion. */
  function Distinct<T(==,!new)>(s: seq<T>): (r: seq<T>)
    ensures NoDuplicates(r)
    ensures forall x :: x in r <==> x in s
  {
    if |s| == 0 then []
    else
      var init, last := s[..|s| - 1], s[|s| - 1];
      var r0 := Distinct(init);
      if last in r0 then r0 else r0 + [last]
  }

  /** The distinct values are listed in order of their first occurrence. */
  lemma {:induction false} DistinctInFirstOccurrenceOrder<T(!new)>(s: seq<T>)
    ensures forall i, j :: 0 <= i < j < |Distinct(s)| ==> FirstIndex(s, Distinct(s)[i]) < FirstIndex(s, Distinct(s)[j])
  {
    if |s| > 0 {
      var init, last := s[..|s| - 1], s[|s| - 1];
      var r0 := Distinct(init);
      DistinctInFirstOccurrenceOrder(init);
      forall x | x in r0 ensures FirstIndex(s, x) == FirstIndex(init, x) {
        FirstIndexOfPrefix(s, |s| - 1, x);
      }
      var r := Distinct(s);
      if last !in r0 {
        assert r == r0 + [last];
        assert FirstIndex(s, last) == |s| - 1;
        forall i, j | 0 <= i < j < |r| ensures FirstIndex(s, r[i]) < FirstIndex(s, r[j]) {
          assert r[i] == r0[i] && r0[i] in r0;
          assert FirstIndex(s, r0[i]) == FirstIndex(init, r0[i]) < |init|;
          if j < |r0| {
            assert r[j] == r0[j] && r0[j] in r0;
            assert FirstIndex(s, r0[j]) == FirstIndex(init, r0[j]);
          } else {
            assert r[j] == last;
          }
        }
      } else {
        forall i, j | 0 <= i < j < |r| ensures FirstIndex(s, r[i]) < FirstIndex(s, r[j]) {
          assert r[i] in r0 && r[j] in r0;
        }
      }
    }
  }

  /** The key each item contributes to the `Set` (line 45-47 maps a `null` id to `undefined`). */
  function ItemIds(items: seq<Item>): (ids: seq<Option<ItemId>>)
    ensures |ids| == |items|
    ensures forall i :: 0 <= i < |items| ==> ids[i] == items[i].orderItemId
  {
    if |items| == 0 then [] else ItemIds(items[..|items| - 1]) + [items[|items| - 1].orderItemId]
  }

  /** `orderItems` of `analyzeOrders`. */
  function DistinctItemIds(items: seq<Item>): seq<Option<ItemId>> {
    Distinct(ItemIds(items))
  }

  /** The first distinct id is the first item's id. */
  lemma DistinctItemIdsHead(items: seq<Item>)
    requires |items| > 0
    ensures |DistinctItemIds(items)| > 0 && DistinctItemIds(items)[0] == items[0].orderItemId
  {
    var ids := ItemIds(items);
    var r := DistinctItemIds(items);
    assert ids[0] in r;
    var k :| 0 <= k < |r| && r[k] == ids[0];
    assert FirstIndex(ids, ids[0]) == 0;
    DistinctInFirstOccurrenceOrder(ids);
  }

  // ---------------------------------------------------------------------------
  // The item filter (lines 90-92): the items whose id is strictly equal to the key
  // ---------------------------------------------------------------------------

  /** Whether `item` belongs to the group of `key`; a `null` id belongs to no group. */
  predicate InGroup(item: Item, key: Option<ItemId>) {
    key.Some? && item.orderItemId == key
  }

  /** The items of the group of `key`, in their original order. */
  function ItemsFor(items: seq<Item>, key: Option<ItemId>): (r: seq<Item>)
    ensures forall it :: it in r <==> it in items && InGroup(it, key)
    ensures |r| <= |items|
    ensures key.None? ==> r == []
  {
    if |items| == 0 then []
    else
      var last := items[|items| - 1];
      ItemsFor(items[..|items| - 1], key) + (if InGroup(last, key) then [last] else [])
  }

  /** The filter distributes over concatenation, so it keeps the items' relative order. */
  lemma {:induction false} ItemsForAppend(a: seq<Item>, b: seq<Item>, key: Option<ItemId>)
    ensures ItemsFor(a + b, key) == ItemsFor(a, key) + ItemsFor(b, key)
    decreases |b|
  {
    if |b| == 0 {
      assert a + b == a;
    } else {
      var last := b[|b| - 1];
      assert (a + b)[..|a + b| - 1] == a + b[..|b| - 1];
      ItemsForAppend(a, b[..|b| - 1], key);
    }
  }

  // ---------------------------------------------------------------------------
  // Tag of the primary payload (lines 95-114)
  // ---------------------------------------------------------------------------

  const TagShipEmmaus: int := 34317
  /** The temporary Dropship-AMC tag (the permanent 34316 is commented out in the source). */
  const TagDropshipAmc: int := 34550
  const TagDropshipImpact: int := 34318
  const TagDropshipTrevco: int := 34546

  /** The tag list of the primary payload, chosen from its first item; the existing
      tags stay when no rule applies. */
  function PrimaryTags(first: Item, current: seq<int>): (tags: seq<int>)
    ensures tags == current
         || (|tags| == 1 && tags[0] in {TagShipEmmaus, TagDropshipAmc, TagDropshipImpact, TagDropshipTrevco})
  {
    if first.warehouseLocation.Some? then [TagShipEmmaus]
    else if "DRA" <= first.sku || "DR2" <= first.sku then [TagDropshipAmc]
    else if "DRI" <= first.sku then [TagDropshipImpact]
    else if "DRT" <= first.sku then [TagDropshipTrevco]
    else current
  }

  /** The SKU-prefix rules as a declarative table, tried in order. */
  const SkuPrefixTags: seq<(string, int)> :=
    [("DRA", TagDropshipAmc), ("DR2", TagDropshipAmc), ("DRI", TagDropshipImpact), ("DRT", TagDropshipTrevco)]

  /** The tag of the first row whose prefix starts `sku`. */
  function LookupPrefix(table: seq<(string, int)>, sku: string): (r: Option<int>)
    ensures r.None? <==> forall i :: 0 <= i < |table| ==> !(table[i].0 <= sku)
    ensures r.Some? ==> exists i :: 0 <= i < |table| && table[i].0 <= sku && r.value == table[i].1
                                    && forall j :: 0 <= j < i ==> !(table[j].0 <= sku)
  {
    if |table| == 0 then None
    else if table[0].0 <= sku then Some(table[0].1)
    else
      var r := LookupPrefix(table[1..], sku);
      assert forall i :: 1 <= i < |table| ==> table[i] == table[1..][i - 1];
      r
  }

  /** The tag chosen by the table: a warehouse location first, then the first matching prefix. */
  function TableTags(first: Item, current: seq<int>): seq<int> {
    if first.warehouseLocation.Some? then [TagShipEmmaus]
    else match LookupPrefix(SkuPrefixTags, first.sku)
      case Some(tag) => [tag]
      case None => current
  }

  /** The source's chain of conditionals agrees with the declarative table. */
  lemma PrimaryTagsByTable(first: Item, current: seq<int>)
    ensures PrimaryTags(first, current) == TableTags(first, current)
  {
    var t := SkuPrefixTags;
    assert LookupPrefix(t[1..][1..][1..][1..], first.sku) == None;
    assert LookupPrefix(t[1..][1..][1..], first.sku)
        == if "DRT" <= first.sku then Some(TagDropshipTrevco) else None;
    assert LookupPrefix(t[1..][1..], first.sku)
        == if "DRI" <= first.sku then Some(TagDropshipImpact) else LookupPrefix(t[1..][1..][1..], first.sku);
    assert LookupPrefix(t[1..], first.sku)
        == if "DR2" <= first.sku then Some(TagDropshipAmc) else LookupPrefix(t[1..][1..], first.sku);
  }
}
