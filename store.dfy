/**
 * The shared order list `_dbOrders` of Program.cs and the code that changes
 * it. Each `lock (_lock) { ... }` block is one method, run without
 * interruption; the sync pass of Program.cs:43-107 is `Sync`.
 */
module Store {
  import opened Basics
  import opened Models
  import opened Payloads
  import opened Parsing
  import opened Batching
  import opened Reconcile
  import opened Commands

  class OrderStore {
    /** The stored orders, in list order. */
    var orders: seq<Order>

    /** Every status is one of the two the code writes. */
    ghost predicate Valid()
      reads this
    {
      forall o :: o in orders ==> KnownStatus(o.status)
    }

    constructor ()
      ensures Valid() && orders == []
    {
      orders := [];
    }

    /** `_dbOrders.RemoveAll(o => o.Status == 0 && !liveIds.Contains(o.OrderId))` (Program.cs:62). */
    method RemoveStale(live: seq<string>)
      requires Valid()
      modifies this
      ensures Valid()
      ensures orders == Pruned(old(orders), live)
    {
      orders := Pruned(orders, live);
    }

    /** `liveIds.Where(id => !_dbOrders.Any(o => o.OrderId == id))` under the
        lock (Program.cs:65): the listed ids no stored order has, in listing
        order. Reads the store and changes nothing. */
    method NewIdsNow(live: seq<string>) returns (ids: seq<string>)
      ensures ids == NewIds(live, orders)
      ensures forall id :: id in ids <==> id in live && id !in Ids(orders)
    {
      ids := NewIds(live, orders);
    }

    /** The lock block of Program.cs:78-102: build and add the order of each
        record in turn. A record lacking a property throws (`ok` is false);
        the orders added before it stay. */
    method AppendBatch(recs: seq<OrderRecord>) returns (ok: bool)
      requires Valid()
      modifies this
      ensures Valid()
      ensures orders == old(orders) + ParseBatch(recs).built
      ensures ok == ParseBatch(recs).ok
    {
      ghost var added: seq<Order> := [];
      var i := 0;
      while i < |recs|
        invariant 0 <= i <= |recs|
        invariant Valid()
        invariant orders == old(orders) + added
        invariant ParseBatch(recs).built == added + ParseBatch(recs[i..]).built
        invariant ParseBatch(recs).ok == ParseBatch(recs[i..]).ok
      {
        ParseBatchStep(recs, i);
        var o := BuildOrder(recs[i]);
        if o.None? {
          return false;
        }
        ghost var rest := ParseBatch(recs[i + 1..]).built;
        assert ParseBatch(recs[i..]).built == [o.value] + rest;
        assert added + ([o.value] + rest) == (added + [o.value]) + rest;
        orders := orders + [o.value];
        added := added + [o.value];
        i := i + 1;
      }
      assert recs[i..] == [];
      return true;
    }

    /** `/api/assign` (Program.cs:145). */
    method Assign(id: string, user: string)
      requires Valid()
      modifies this
      ensures Valid()
      ensures orders == Assigned(old(orders), id, user)
    {
      var k := FirstIndex(orders, id);
      if k.Some? {
        orders := orders[k.value := orders[k.value].(assignedTo := user)];
      }
    }

    /** `/api/ship` (Program.cs:151). */
    method Ship(id: string)
      requires Valid()
      modifies this
      ensures Valid()
      ensures orders == Shipped(old(orders), id)
    {
      var k := FirstIndex(orders, id);
      if k.Some? {
        orders := orders[k.value := orders[k.value].(status := StatusProcessed)];
      }
    }

    /** One turn of the batch loop (Program.cs:72-104): fetch the details of
        `batch` and, when the reply has an order list, add its orders under
        the lock. `failed` says that reading the reply threw. */
    method SendBatch(batch: seq<string>, fetch: seq<string> -> DetailReply) returns (failed: bool)
      requires Valid()
      modifies this
      ensures Valid()
      ensures orders == AfterReply(old(orders), fetch(batch))
      ensures failed == Throws(fetch(batch))
    {
      var detail := fetch(batch);
      match detail {
        case DetailUnreadable =>
          return true;
        case DetailWithoutOrders =>
          return false;
        case DetailOrders(recs) =>
          var ok := AppendBatch(recs);
          return !ok;
      }
    }

    /** The batch loop of Program.cs:70-105: send each batch of `newIds`
        and add the orders of its reply; stop at the first exception. */
    method RunBatches(newIds: seq<string>, fetch: seq<string> -> DetailReply) returns (sent: seq<RemoteCall>, threw: bool)
      requires Valid()
      modifies this
      ensures Valid()
      ensures BatchRun(orders, sent, threw) == RunFrom(old(orders), newIds, 0, fetch)
    {
      sent := [];
      var i: nat := 0;
      while i < |newIds|
        invariant Valid()
        invariant var r := RunFrom(orders, newIds, i, fetch);
          RunFrom(old(orders), newIds, 0, fetch) == BatchRun(r.store, sent + r.calls, r.threw)
        decreases |newIds| - i
      {
        var batch := BatchAt(newIds, i);
        RunFromStep(orders, newIds, i, fetch);
        sent := sent + [DetailCall(batch)];
        var failed := SendBatch(batch, fetch);
        if failed {
          return sent, true;
        }
        i := i + BatchSize;
      }
      threw := false;
    }

    /** One pass of `CoreEngineSync`, with the clock reading `now` and the
        marketplace's replies given. It returns the remote calls it made and
        how it ended. */
    method Sync(now: int, remote: Remote) returns (calls: seq<RemoteCall>, outcome: PassOutcome)
      requires Valid()
      modifies this
      ensures Valid()
      ensures SyncRun(orders, calls, outcome) == SyncSpec(old(orders), now, remote)
    {
      var list := ListCall(now - WindowSeconds, now);
      calls := [list];
      var reply := remote.firstList;
      if reply.mentionsAuthError {
        calls := calls + [RefreshCall];
        if remote.refreshOk {
          calls := calls + [list];
          reply := remote.retryList;
        } else {
          return calls, AuthAborted;
        }
      }
      assert calls == ListingCalls(now, remote) && reply == ListingUsed(remote);
      var live := LiveIds(reply.body);
      if live.None? {
        return calls, Threw;
      }
      ghost var start := orders;
      RemoveStale(live.value);
      SyncUnfold(start, now, remote, live.value);
      var newIds := NewIdsNow(live.value);
      outcome := Completed;
      if |newIds| > 0 {
        var sent, threw := RunBatches(newIds, remote.fetch);
        calls := calls + sent;
        if threw {
          outcome := Threw;
        }
      } else {
        assert calls + [] == calls;
      }
    }
  }
}
