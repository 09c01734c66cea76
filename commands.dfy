/**
 * The two staff commands (Program.cs:142-153): `/api/assign` sets
 * `AssignedTo` and `/api/ship` sets `Status = 1`, each on the first order
 * whose id matches (`FirstOrDefault`); an absent id changes nothing.
 */
module Commands {
  import opened Basics
  import opened Models

  /** `FirstOrDefault(x => x.OrderId == id)`, as a position. */
  function FirstIndex(orders: seq<Order>, id: string): (r: Option<nat>)
    ensures r.Some? ==> r.value < |orders| && orders[r.value].orderId == id
    ensures r.Some? ==> forall j :: 0 <= j < r.value ==> orders[j].orderId != id
    ensures r.None? <==> id !in Ids(orders)
    decreases |orders|
  {
    if orders == [] then None
    else
      assert Ids(orders) == [orders[0].orderId] + Ids(orders[1..]);
      if orders[0].orderId == id then Some(0)
      else match FirstIndex(orders[1..], id)
      case None => None
      case Some(j) => Some(j + 1)
  }

  /** The store after `/api/assign?id=id&user=user`. */
  function Assigned(orders: seq<Order>, id: string, user: string): (r: seq<Order>)
    ensures |r| == |orders|
  {
    match FirstIndex(orders, id)
    case None => orders
    case Some(j) => orders[j := orders[j].(assignedTo := user)]
  }

  /** The store after `/api/ship?id=id`. */
  function Shipped(orders: seq<Order>, id: string): (r: seq<Order>)
    ensures |r| == |orders|
  {
    match FirstIndex(orders, id)
    case None => orders
    case Some(j) => orders[j := orders[j].(status := StatusProcessed)]
  }

  /** Assign touches only `AssignedTo` of the first order with the id. */
  lemma AssignedFrame(orders: seq<Order>, id: string, user: string)
    ensures var r := Assigned(orders, id, user);
      && |r| == |orders| && Ids(r) == Ids(orders)
      && (id !in Ids(orders) ==> r == orders)
      && (forall j :: 0 <= j < |orders| && Some(j) != FirstIndex(orders, id) ==> r[j] == orders[j])
      && (forall j :: 0 <= j < |orders| && Some(j) == FirstIndex(orders, id) ==>
            r[j] == orders[j].(assignedTo := user) && r[j].assignedTo == user)
  {
  }

  /** Ship touches only `Status` of the first order with the id. */
  lemma ShippedFrame(orders: seq<Order>, id: string)
    ensures var r := Shipped(orders, id);
      && |r| == |orders| && Ids(r) == Ids(orders)
      && (id !in Ids(orders) ==> r == orders)
      && (forall j :: 0 <= j < |orders| && Some(j) != FirstIndex(orders, id) ==> r[j] == orders[j])
      && (forall j :: 0 <= j < |orders| && Some(j) == FirstIndex(orders, id) ==>
            r[j] == orders[j].(status := StatusProcessed) && r[j].status == StatusProcessed)
  {
  }

  /** The first match depends only on the ids. */
  lemma {:induction false} FirstIndexByIds(a: seq<Order>, b: seq<Order>, id: string)
    requires Ids(a) == Ids(b)
    ensures FirstIndex(a, id) == FirstIndex(b, id)
    decreases |a|
  {
    if a != [] {
      assert |b| == |Ids(b)| == |a|;
      assert a[0].orderId == Ids(a)[0] == Ids(b)[0] == b[0].orderId;
      assert Ids(a[1..]) == Ids(a)[1..] == Ids(b)[1..] == Ids(b[1..]);
      FirstIndexByIds(a[1..], b[1..], id);
    }
  }

  /** Shipping twice leaves the same store as shipping once. */
  lemma ShipIdempotent(orders: seq<Order>, id: string)
    ensures Shipped(Shipped(orders, id), id) == Shipped(orders, id)
  {
    ShippedFrame(orders, id);
    FirstIndexByIds(Shipped(orders, id), orders, id);
  }

  /** The later of two assignments to the same order wins. */
  lemma AssignLastWins(orders: seq<Order>, id: string, u1: string, u2: string)
    ensures Assigned(Assigned(orders, id, u1), id, u2) == Assigned(orders, id, u2)
  {
    AssignedFrame(orders, id, u1);
    FirstIndexByIds(Assigned(orders, id, u1), orders, id);
  }

  /** Neither command adds, removes or re-keys an order, so unique ids stay unique. */
  lemma CommandsKeepUniqueIds(orders: seq<Order>, id: string, user: string)
    requires UniqueIds(orders)
    ensures UniqueIds(Assigned(orders, id, user)) && UniqueIds(Shipped(orders, id))
  {
    AssignedFrame(orders, id, user);
    ShippedFrame(orders, id);
  }
}
