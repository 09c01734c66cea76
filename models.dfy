/**
 * The two record shapes of the order store (Models.cs): an order and one of
 * its line items, with the default values their initialisers give.
 */
module Models {
  import opened Basics

  /** C# `int` and `long`. The JSON readers (`GetInt32`, `GetInt64`) only ever
      deliver values in these ranges. */
  type Int32 = x: int | -0x8000_0000 <= x < 0x8000_0000
  type Int64 = x: int | -0x8000_0000_0000_0000 <= x < 0x8000_0000_0000_0000

  /** The two meanings of `Order.Status`: 0 = new, 1 = processed. */
  const StatusNew: Int32 := 0
  const StatusProcessed: Int32 := 1

  predicate KnownStatus(s: Int32)
  {
    s == StatusNew || s == StatusProcessed
  }

  datatype OrderItem = OrderItem(
    itemId: Int64,
    modelName: string,
    productName: string,
    imageUrl: string,
    quantity: Int32,
    sku: string,
    location: string,
    // fields of the cross-order picking view
    picked: bool,
    orderIds: seq<string>,
    totalQty: Int32,
    showDetail: bool)

  datatype Order = Order(
    orderId: string,
    status: Int32,
    assignedTo: string,
    createdAt: Int64,
    items: seq<OrderItem>,
    selected: bool)

  /** `new Order()`: every property at its initialiser (CreatedAt at the `long` default). */
  function DefaultOrder(): (o: Order)
    ensures o.orderId == "" && o.status == StatusNew && o.assignedTo == ""
    ensures o.createdAt == 0 && o.items == [] && !o.selected
  {
    Order("", 0, "", 0, [], false)
  }

  /** `new OrderItem()`: every property at its initialiser or its type's default. */
  function DefaultItem(): (it: OrderItem)
    ensures it.modelName == "" && it.productName == "" && it.imageUrl == ""
    ensures it.sku == "" && it.location == "" && it.itemId == 0 && it.quantity == 0
    ensures !it.picked && it.orderIds == [] && it.totalQty == 0 && !it.showDetail
  {
    OrderItem(0, "", "", "", 0, "", "", false, [], 0, false)
  }

  /** The picking-view fields of `it` still hold their defaults. */
  predicate HasPickingDefaults(it: OrderItem)
  {
    it.picked == DefaultItem().picked
    && it.orderIds == DefaultItem().orderIds
    && it.totalQty == DefaultItem().totalQty
    && it.showDetail == DefaultItem().showDetail
  }

  /** The order ids of a store, in store order. */
  function Ids(orders: seq<Order>): (r: seq<string>)
    ensures |r| == |orders|
  {
    seq(|orders|, j requires 0 <= j < |orders| => orders[j].orderId)
  }

  /** The ids of two stores laid end to end. */
  lemma IdsAppend(a: seq<Order>, b: seq<Order>)
    ensures Ids(a + b) == Ids(a) + Ids(b)
  {
  }

  /** No two orders of the store share an id. */
  ghost predicate UniqueIds(orders: seq<Order>)
  {
    Distinct(Ids(orders))
  }

  /** Two id-unique stores with no id in common make an id-unique store. */
  lemma UniqueIdsAppend(a: seq<Order>, b: seq<Order>)
    requires UniqueIds(a) && UniqueIds(b)
    requires forall j :: 0 <= j < |b| ==> b[j].orderId !in Ids(a)
    ensures UniqueIds(a + b)
  {
    IdsAppend(a, b);
    var s := Ids(a + b);
    forall x, y | 0 <= x < y < |s| ensures s[x] != s[y] {
      if x < |a| && |a| <= y {
        assert s[y] == b[y - |a|].orderId;
      }
    }
  }
}
