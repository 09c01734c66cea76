/**
 * One reconciliation pass of `CoreEngineSync` (Program.cs:43-107) as a
 * function of the store before the pass, the clock reading and the replies
 * of the marketplace. The class in the Store module runs the same pass step
 * by step; the lemmas here state what a pass does to the store.
 */
module Reconcile {
  import opened Basics
  import opened Models
  import opened Payloads
  import opened Parsing
  import opened Batching

  /** `AddDays(-15)` in Unix seconds: the listing covers the last 15 days. */
  const WindowSeconds: int := 15 * 24 * 60 * 60

  /** The `RemoveAll` predicate: a new order the listing no longer shows. */
  predicate Stale(o: Order, live: seq<string>)
    ensures Stale(o, live) ==> o.status != StatusProcessed && o.orderId !in live
  {
    o.status == StatusNew && o.orderId !in live
  }

  /** The store after `RemoveAll(Stale)`. */
  function Pruned(orders: seq<Order>, live: seq<string>): (r: seq<Order>)
    ensures forall o :: o in r <==> o in orders && !Stale(o, live)
    ensures |r| <= |orders|
    decreases |orders|
  {
    if orders == [] then []
    else (if Stale(orders[0], live) then [] else [orders[0]]) + Pruned(orders[1..], live)
  }

  /** `liveIds.Where(id => !orders.Any(o => o.OrderId == id))`. */
  function NewIds(live: seq<string>, orders: seq<Order>): (r: seq<string>)
    ensures forall id :: id in r <==> id in live && id !in Ids(orders)
    ensures |r| <= |live|
    decreases |live|
  {
    if live == [] then []
    else (if live[0] in Ids(orders) then [] else [live[0]]) + NewIds(live[1..], orders)
  }

  /** The ids of a listing reply; `None` when reading it throws. */
  function LiveIds(body: ListBody): (r: Option<seq<string>>)
    ensures r.None? <==> body.ListUnreadable? || (body.ListOrders? && exists j :: 0 <= j < |body.entries| && body.entries[j].None?)
    ensures body.ListWithoutOrders? ==> r == Some([])
    ensures r.Some? && body.ListOrders? ==>
      |r.value| == |body.entries| && forall j :: 0 <= j < |r.value| ==> body.entries[j] == Some(r.value[j])
  {
    match body
    case ListUnreadable => None
    case ListWithoutOrders => Some([])
    case ListOrders(entries) =>
      if forall j :: 0 <= j < |entries| ==> entries[j].Some? then
        Some(seq(|entries|, j requires 0 <= j < |entries| => entries[j].value))
      else None
  }

  /** The listing reply the pass goes on with: the retried one after an auth error. */
  function ListingUsed(remote: Remote): (r: ListReply)
    ensures !remote.firstList.mentionsAuthError ==> r == remote.firstList
    ensures remote.firstList.mentionsAuthError ==> r == remote.retryList
  {
    if remote.firstList.mentionsAuthError then remote.retryList else remote.firstList
  }

  /** What the batch loop leaves: the store, the detail calls it made, and
      whether an exception ended the pass. */
  datatype BatchRun = BatchRun(store: seq<Order>, calls: seq<RemoteCall>, threw: bool)

  /** The reply to one batch ends the pass with an exception: it does not
      parse, or one of its records lacks a property. */
  predicate Throws(reply: DetailReply)
  {
    reply.DetailUnreadable? || (reply.DetailOrders? && !ParseBatch(reply.records).ok)
  }

  /** The store once the orders of a reply are added (those before a throw). */
  function AfterReply(store: seq<Order>, reply: DetailReply): (r: seq<Order>)
  {
    store + Stored(reply)
  }

  /** The orders one detail reply adds before the loop goes on or throws. */
  function Stored(reply: DetailReply): (r: seq<Order>)
    ensures |r| <= (if reply.DetailOrders? then |reply.records| else 0)
  {
    if reply.DetailOrders? then ParseBatch(reply.records).built else []
  }

  /** The orders the replies to the batches `sent` add, in sending order. */
  function Added(sent: seq<seq<string>>, fetch: seq<string> -> DetailReply): (r: seq<Order>)
  {
    if sent == [] then [] else Stored(fetch(sent[0])) + Added(sent[1..], fetch)
  }

  /** The batch loop from offset `i` on: fetch each batch, and add every order
      of a reply that has an order list. A reply that does not parse, or a
      record that lacks a property, throws and ends the pass; the orders of
      that reply added before the throw stay. */
  function RunFrom(store: seq<Order>, ids: seq<string>, i: nat, fetch: seq<string> -> DetailReply): (r: BatchRun)
    ensures r.calls == [] <==> |ids| <= i
    ensures r.threw ==> r.calls != []
    ensures |store| <= |r.store|
    decreases |ids| - i
  {
    if |ids| <= i then BatchRun(store, [], false)
    else
      var b := BatchAt(ids, i);
      var next := AfterReply(store, fetch(b));
      if Throws(fetch(b)) then BatchRun(next, [DetailCall(b)], true)
      else
        var r := RunFrom(next, ids, i + BatchSize, fetch);
        BatchRun(r.store, [DetailCall(b)] + r.calls, r.threw)
  }

  /** RunFrom with its first batch unfolded. */
  lemma RunFromStep(store: seq<Order>, ids: seq<string>, i: nat, fetch: seq<string> -> DetailReply)
    requires i < |ids|
    ensures var b := BatchAt(ids, i);
      var next := AfterReply(store, fetch(b));
      RunFrom(store, ids, i, fetch) ==
        if Throws(fetch(b)) then BatchRun(next, [DetailCall(b)], true)
        else
          var r := RunFrom(next, ids, i + BatchSize, fetch);
          BatchRun(r.store, [DetailCall(b)] + r.calls, r.threw)
  {
  }

  /** How a pass ends: it ran to the end, gave up after a failed token
      refresh, or an exception reached the polling loop. */
  datatype PassOutcome = Completed | AuthAborted | Threw

  datatype SyncRun = SyncRun(store: seq<Order>, calls: seq<RemoteCall>, outcome: PassOutcome)

  /** The pass gives up: the first listing reports an auth error and the refresh fails. */
  predicate RefreshFails(remote: Remote)
  {
    remote.firstList.mentionsAuthError && !remote.refreshOk
  }

  /** The calls made before the listing is read: list, and on an auth error
      refresh and (if that succeeded) list again. */
  function ListingCalls(now: int, remote: Remote): (r: seq<RemoteCall>)
    ensures 1 <= |r| <= 3 && r[0] == ListCall(now - WindowSeconds, now)
    ensures |r| > 1 <==> remote.firstList.mentionsAuthError
    ensures |r| > 1 ==> r[1] == RefreshCall
    ensures |r| == 3 <==> remote.firstList.mentionsAuthError && remote.refreshOk
  {
    var list := ListCall(now - WindowSeconds, now);
    if !remote.firstList.mentionsAuthError then [list]
    else if remote.refreshOk then [list, RefreshCall, list]
    else [list, RefreshCall]
  }

  /** One whole pass. */
  function SyncSpec(store: seq<Order>, now: int, remote: Remote): (r: SyncRun)
    ensures ListingCalls(now, remote) <= r.calls
    ensures r.outcome == AuthAborted ==> r.store == store && r.calls == ListingCalls(now, remote)
  {
    var pre := ListingCalls(now, remote);
    if RefreshFails(remote) then SyncRun(store, pre, AuthAborted)
    else
      match LiveIds(ListingUsed(remote).body)
      case None => SyncRun(store, pre, Threw)
      case Some(live) =>
        var kept := Pruned(store, live);
        var run := RunFrom(kept, NewIds(live, kept), 0, remote.fetch);
        SyncRun(run.store, pre + run.calls, if run.threw then Threw else Completed)
  }

  // ---------------------------------------------------------------------
  // Reading a call trace

  function ListCallCount(calls: seq<RemoteCall>): (r: nat)
  {
    if calls == [] then 0 else (if calls[0].ListCall? then 1 else 0) + ListCallCount(calls[1..])
  }

  function RefreshCallCount(calls: seq<RemoteCall>): (r: nat)
  {
    if calls == [] then 0 else (if calls[0].RefreshCall? then 1 else 0) + RefreshCallCount(calls[1..])
  }

  /** The id batches of the detail calls, in call order. */
  function SentBatches(calls: seq<RemoteCall>): (r: seq<seq<string>>)
  {
    if calls == [] then []
    else (if calls[0].DetailCall? then [calls[0].ids] else []) + SentBatches(calls[1..])
  }

  lemma {:induction false} CountsAppend(a: seq<RemoteCall>, b: seq<RemoteCall>)
    ensures ListCallCount(a + b) == ListCallCount(a) + ListCallCount(b)
    ensures RefreshCallCount(a + b) == RefreshCallCount(a) + RefreshCallCount(b)
    ensures SentBatches(a + b) == SentBatches(a) + SentBatches(b)
  {
    if a != [] {
      assert (a + b)[1..] == a[1..] + b;
      CountsAppend(a[1..], b);
    } else {
      assert a + b == b;
    }
  }

  /** Only detail calls: no listing and no refresh among them. */
  lemma {:induction false} DetailOnlyCounts(calls: seq<RemoteCall>)
    requires forall j :: 0 <= j < |calls| ==> calls[j].DetailCall?
    ensures ListCallCount(calls) == 0 && RefreshCallCount(calls) == 0
  {
    if calls != [] {
      DetailOnlyCounts(calls[1..]);
    }
  }

  // ---------------------------------------------------------------------
  // Pruning and the new-id filter

  /** RemoveAll keeps the survivors in their relative order. */
  lemma {:induction false} PrunedAppend(a: seq<Order>, b: seq<Order>, live: seq<string>)
    ensures Pruned(a + b, live) == Pruned(a, live) + Pruned(b, live)
    decreases |a|
  {
    if a == [] {
      assert a + b == b;
    } else {
      var head := if Stale(a[0], live) then [] else [a[0]];
      assert (a + b)[0] == a[0] && (a + b)[1..] == a[1..] + b;
      assert Pruned(a + b, live) == head + Pruned(a[1..] + b, live);
      PrunedAppend(a[1..], b, live);
      AppendAssoc(head, Pruned(a[1..], live), Pruned(b, live));
    }
  }

  /** The new ids keep the listing's order. */
  lemma {:induction false} NewIdsAppend(a: seq<string>, b: seq<string>, orders: seq<Order>)
    ensures NewIds(a + b, orders) == NewIds(a, orders) + NewIds(b, orders)
    decreases |a|
  {
    if a == [] {
      assert a + b == b;
    } else {
      var head := if a[0] in Ids(orders) then [] else [a[0]];
      assert (a + b)[0] == a[0] && (a + b)[1..] == a[1..] + b;
      assert NewIds(a + b, orders) == head + NewIds(a[1..] + b, orders);
      NewIdsAppend(a[1..], b, orders);
      AppendAssoc(head, NewIds(a[1..], orders), NewIds(b, orders));
    }
  }

  /** A listing without repeats gives new ids without repeats. */
  lemma {:induction false} NewIdsDistinct(live: seq<string>, orders: seq<Order>)
    requires Distinct(live)
    ensures Distinct(NewIds(live, orders))
    decreases |live|
  {
    if live != [] {
      NewIdsDistinct(live[1..], orders);
      assert live[0] !in live[1..];
    }
  }

  /** Pruning never creates a duplicate id. */
  lemma {:induction false} PrunedUnique(orders: seq<Order>, live: seq<string>)
    requires UniqueIds(orders)
    ensures UniqueIds(Pruned(orders, live))
    decreases |orders|
  {
    if orders != [] {
      var rest := orders[1..];
      IdsAppend([orders[0]], rest);
      assert orders == [orders[0]] + rest;
      assert UniqueIds(rest) by {
        assert Ids(rest) == Ids(orders)[1..];
      }
      PrunedUnique(rest, live);
      var head := if Stale(orders[0], live) then [] else [orders[0]];
      HeadNotPruned(orders, live);
      UniqueIdsAppend(head, Pruned(rest, live));
    }
  }

  /** In an id-unique store, no order after the first survives pruning with
      the first order's id. */
  lemma HeadNotPruned(orders: seq<Order>, live: seq<string>)
    requires UniqueIds(orders) && orders != []
    ensures forall j :: 0 <= j < |Pruned(orders[1..], live)| ==>
      Pruned(orders[1..], live)[j].orderId != orders[0].orderId
  {
    var rest := orders[1..];
    forall j | 0 <= j < |Pruned(rest, live)| ensures Pruned(rest, live)[j].orderId != orders[0].orderId {
      var o := Pruned(rest, live)[j];
      assert o in rest;
      var k :| 0 <= k < |rest| && rest[k] == o;
      assert Ids(orders)[k + 1] == o.orderId && Ids(orders)[0] == orders[0].orderId;
    }
  }


  // ---------------------------------------------------------------------
  // The batch loop

  /** An order as the sync path adds it: new, unassigned, unselected, and
      every item with its picking fields at their defaults. */
  ghost predicate SyncedFresh(o: Order)
  {
    o.status == StatusNew && o.assignedTo == "" && !o.selected
    && forall j :: 0 <= j < |o.items| ==> HasPickingDefaults(o.items[j])
  }

  lemma BuiltFresh(recs: seq<OrderRecord>)
    ensures forall j :: 0 <= j < |ParseBatch(recs).built| ==> SyncedFresh(ParseBatch(recs).built[j])
  {
    ParseBatchSpec(recs);
    forall j | 0 <= j < |ParseBatch(recs).built| ensures SyncedFresh(ParseBatch(recs).built[j]) {
      OrderFromRecordSpec(recs[j]);
    }
  }

  /** The loop makes only detail calls. */
  lemma {:induction false} RunFromDetailOnly(store: seq<Order>, ids: seq<string>, i: nat, fetch: seq<string> -> DetailReply)
    ensures forall j :: 0 <= j < |RunFrom(store, ids, i, fetch).calls| ==> RunFrom(store, ids, i, fetch).calls[j].DetailCall?
    decreases |ids| - i
  {
    if i < |ids| && !Throws(fetch(BatchAt(ids, i))) {
      RunFromDetailOnly(AfterReply(store, fetch(BatchAt(ids, i))), ids, i + BatchSize, fetch);
    }
  }

  /** The detail calls of the loop are its batches in order: all of them when
      the loop runs to the end, the first few when it throws. */
  lemma {:induction false} RunFromCalls(store: seq<Order>, ids: seq<string>, i: nat, fetch: seq<string> -> DetailReply)
    requires i <= |ids|
    ensures var r := RunFrom(store, ids, i, fetch);
      && (forall j :: 0 <= j < |r.calls| ==> r.calls[j].DetailCall?)
      && SentBatches(r.calls) <= BatchesFrom(ids, i)
      && (!r.threw ==> SentBatches(r.calls) == BatchesFrom(ids, i))
      && (r.threw ==> SentBatches(r.calls) != [])
    decreases |ids| - i
  {
    if i < |ids| {
      var b := BatchAt(ids, i);
      BatchesFromStep(ids, i);
      var head := [DetailCall(b)];
      SingletonCounts(DetailCall(b));
      var later := if i + BatchSize <= |ids| then BatchesFrom(ids, i + BatchSize) else [];
      if !Throws(fetch(b)) {
        var next := AfterReply(store, fetch(b));
        var tail := RunFrom(next, ids, i + BatchSize, fetch);
        assert RunFrom(store, ids, i, fetch) == BatchRun(tail.store, head + tail.calls, tail.threw);
        CountsAppend(head, tail.calls);
        var rest := SentBatches(tail.calls);
        assert SentBatches(head + tail.calls) == [b] + rest;
        if i + BatchSize <= |ids| {
          RunFromCalls(next, ids, i + BatchSize, fetch);
          PrefixCons(b, rest, later);
        } else {
          assert rest == [];
        }
      } else {
        PrefixCons(b, [], later);
        assert [b] + [] == [b];
      }
    }
    RunFromDetailOnly(store, ids, i, fetch);
  }

  /** The loop stops at the first reply that throws: no sent batch but the
      last got a throwing reply, and the loop reports a throw exactly when
      the last sent batch's reply throws. */
  lemma {:induction false} RunFromStops(store: seq<Order>, ids: seq<string>, i: nat, fetch: seq<string> -> DetailReply)
    ensures var r := RunFrom(store, ids, i, fetch);
      var sent := SentBatches(r.calls);
      && (forall k :: 0 <= k < |sent| - 1 ==> !Throws(fetch(sent[k])))
      && (r.threw <==> sent != [] && Throws(fetch(sent[|sent| - 1])))
    decreases |ids| - i
  {
    var r := RunFrom(store, ids, i, fetch);
    if i < |ids| {
      var b := BatchAt(ids, i);
      var next := AfterReply(store, fetch(b));
      SingletonCounts(DetailCall(b));
      var tail := if Throws(fetch(b)) then BatchRun(next, [], true) else RunFrom(next, ids, i + BatchSize, fetch);
      assert r.calls == [DetailCall(b)] + tail.calls;
      CountsAppend([DetailCall(b)], tail.calls);
      var rest := SentBatches(tail.calls);
      var sent := [b] + rest;
      assert SentBatches(r.calls) == sent;
      if Throws(fetch(b)) {
        assert rest == [];
      } else {
        RunFromStops(next, ids, i + BatchSize, fetch);
        assert forall k :: 0 < k < |sent| ==> sent[k] == rest[k - 1];
        if rest == [] {
          assert !r.threw;
        }
      }
    }
  }

  /** The loop adds exactly the orders built from the replies to the batches
      it sent, in sending order, after the store it starts from. */
  lemma {:induction false} RunFromAdded(store: seq<Order>, ids: seq<string>, i: nat, fetch: seq<string> -> DetailReply)
    ensures var r := RunFrom(store, ids, i, fetch);
      r.store == store + Added(SentBatches(r.calls), fetch)
    decreases |ids| - i
  {
    var r := RunFrom(store, ids, i, fetch);
    if i < |ids| {
      var b := BatchAt(ids, i);
      var next := AfterReply(store, fetch(b));
      SingletonCounts(DetailCall(b));
      var tail := if Throws(fetch(b)) then BatchRun(next, [], true) else RunFrom(next, ids, i + BatchSize, fetch);
      assert r.calls == [DetailCall(b)] + tail.calls;
      CountsAppend([DetailCall(b)], tail.calls);
      var sent := SentBatches(tail.calls);
      assert SentBatches(r.calls) == [b] + sent;
      assert ([b] + sent)[1..] == sent;
      if !Throws(fetch(b)) {
        RunFromAdded(next, ids, i + BatchSize, fetch);
      } else {
        assert Added([], fetch) == [];
      }
      var st, ad := Stored(fetch(b)), Added(sent, fetch);
      assert r.store == next + ad;
      assert Added([b] + sent, fetch) == st + ad;
      assert next == store + st;
      AppendAssoc(store, st, ad);
    } else {
      assert r == BatchRun(store, [], false);
      assert store + Added(SentBatches([]), fetch) == store;
    }
  }

  /** The loop only appends: the store it starts from stays a prefix, and
      every order after it is a freshly synced one, built from a reply to
      a batch the loop sent. */
  lemma {:induction false} RunFromStore(store: seq<Order>, ids: seq<string>, i: nat, fetch: seq<string> -> DetailReply)
    ensures var r := RunFrom(store, ids, i, fetch);
      && |store| <= |r.store| && r.store[..|store|] == store
      && r.store[|store|..] == Added(SentBatches(r.calls), fetch)
      && forall j :: |store| <= j < |r.store| ==> SyncedFresh(r.store[j])
    decreases |ids| - i
  {
    RunFromAdded(store, ids, i, fetch);
    if i < |ids| {
      var reply := fetch(BatchAt(ids, i));
      var next := AfterReply(store, reply);
      if reply.DetailOrders? {
        BuiltFresh(reply.records);
      }
      assert next[..|store|] == store;
      assert forall j :: |store| <= j < |next| ==> SyncedFresh(next[j]);
      if !Throws(reply) {
        RunFromStore(next, ids, i + BatchSize, fetch);
      }
    }
  }

  // ---------------------------------------------------------------------
  // Id uniqueness. Orders are added without a duplicate check, so it holds
  // only when the marketplace answers a batch with the ids it was asked for,
  // each at most once.

  /** A reply to batch `b` lists only ids of `b`, none twice. */
  ghost predicate HonestReply(b: seq<string>, reply: DetailReply)
  {
    reply.DetailOrders? ==>
      && (forall j :: 0 <= j < |reply.records| && reply.records[j].orderSn.Some? ==>
            reply.records[j].orderSn.value in b)
      && (forall x, y :: 0 <= x < y < |reply.records| && reply.records[x].orderSn.Some? ==>
            reply.records[x].orderSn != reply.records[y].orderSn)
  }

  ghost predicate HonestFetch(fetch: seq<string> -> DetailReply)
  {
    forall b :: HonestReply(b, fetch(b))
  }

  /** The orders built from an honest reply have distinct ids, all requested. */
  lemma BuiltIds(b: seq<string>, recs: seq<OrderRecord>)
    requires HonestReply(b, DetailOrders(recs))
    ensures UniqueIds(ParseBatch(recs).built)
    ensures forall j :: 0 <= j < |ParseBatch(recs).built| ==> ParseBatch(recs).built[j].orderId in b
  {
    var built := ParseBatch(recs).built;
    ParseBatchSpec(recs);
    forall j | 0 <= j < |built| ensures built[j].orderId == recs[j].orderSn.value && recs[j].orderSn.Some? {
      OrderFromRecordSpec(recs[j]);
    }
  }

  /** Adding the orders of an honest reply to batch `i` keeps ids unique, and
      leaves the ids of later batches unstored. */
  lemma BatchStepUnique(store: seq<Order>, ids: seq<string>, i: nat, reply: DetailReply)
    requires i < |ids| && UniqueIds(store) && Distinct(ids)
    requires forall k :: i <= k < |ids| ==> ids[k] !in Ids(store)
    requires HonestReply(BatchAt(ids, i), reply)
    ensures UniqueIds(AfterReply(store, reply))
    ensures forall k :: i + BatchSize <= k < |ids| ==> ids[k] !in Ids(AfterReply(store, reply))
  {
    var b := BatchAt(ids, i);
    var built := if reply.DetailOrders? then ParseBatch(reply.records).built else [];
    assert AfterReply(store, reply) == store + built;
    if reply.DetailOrders? {
      BuiltIds(b, reply.records);
    }
    forall j | 0 <= j < |built| ensures built[j].orderId !in Ids(store) && built[j].orderId in b {
    }
    UniqueIdsAppend(store, built);
    IdsAppend(store, built);
    forall k, j | i + BatchSize <= k < |ids| && 0 <= j < |built| ensures built[j].orderId != ids[k] {
      var m :| i <= m < Min(i + BatchSize, |ids|) && ids[m] == built[j].orderId;
    }
  }

  /** The batch loop keeps ids unique when the ids still to fetch are
      distinct and none of them is already stored. */
  lemma {:induction false} RunFromUnique(store: seq<Order>, ids: seq<string>, i: nat, fetch: seq<string> -> DetailReply)
    requires UniqueIds(store) && Distinct(ids) && HonestFetch(fetch)
    requires forall k :: i <= k < |ids| ==> ids[k] !in Ids(store)
    ensures UniqueIds(RunFrom(store, ids, i, fetch).store)
    decreases |ids| - i
  {
    if i < |ids| {
      var b := BatchAt(ids, i);
      assert HonestReply(b, fetch(b));
      BatchStepUnique(store, ids, i, fetch(b));
      if !Throws(fetch(b)) {
        RunFromUnique(AfterReply(store, fetch(b)), ids, i + BatchSize, fetch);
      }
    }
  }

  // ---------------------------------------------------------------------
  // Whole passes

  lemma SingletonCounts(c: RemoteCall)
    ensures ListCallCount([c]) == (if c.ListCall? then 1 else 0)
    ensures RefreshCallCount([c]) == (if c.RefreshCall? then 1 else 0)
    ensures SentBatches([c]) == (if c.DetailCall? then [c.ids] else [])
  {
    assert [c][1..] == [];
  }

  lemma ListingCallsCounts(now: int, remote: Remote)
    ensures var pre := ListingCalls(now, remote);
      && ListCallCount(pre) == (if remote.firstList.mentionsAuthError && remote.refreshOk then 2 else 1)
      && RefreshCallCount(pre) == (if remote.firstList.mentionsAuthError then 1 else 0)
      && SentBatches(pre) == []
      && forall j :: 0 <= j < |pre| && pre[j].ListCall? ==> pre[j] == ListCall(now - WindowSeconds, now)
  {
    var list := ListCall(now - WindowSeconds, now);
    SingletonCounts(list);
    SingletonCounts(RefreshCall);
    CountsAppend([list], [RefreshCall]);
    CountsAppend([list, RefreshCall], [list]);
    assert [list] + [RefreshCall] == [list, RefreshCall];
    assert [list, RefreshCall] + [list] == [list, RefreshCall, list];
  }

  /** An auth error in the first listing leads to exactly one refresh; the
      listing is asked for again only if the refresh succeeds, so a pass makes
      at most two listing calls, each over the 15-day window ending `now`. A
      failed refresh ends the pass before the store is touched. */
  lemma SyncAuthRetry(store: seq<Order>, now: int, remote: Remote)
    ensures var r := SyncSpec(store, now, remote);
      && ListCallCount(r.calls) <= 2 && RefreshCallCount(r.calls) <= 1
      && (RefreshCallCount(r.calls) == 1 <==> remote.firstList.mentionsAuthError)
      && (ListCallCount(r.calls) == 2 <==> remote.firstList.mentionsAuthError && remote.refreshOk)
      && (forall j :: 0 <= j < |r.calls| && r.calls[j].ListCall? ==> r.calls[j] == ListCall(now - WindowSeconds, now))
      && (r.outcome == AuthAborted <==> RefreshFails(remote))
      && (r.outcome == AuthAborted ==> r.store == store && SentBatches(r.calls) == [])
  {
    var pre := ListingCalls(now, remote);
    var live := LiveIds(ListingUsed(remote).body);
    if !RefreshFails(remote) && live.Some? {
      var kept := Pruned(store, live.value);
      var run := RunFrom(kept, NewIds(live.value, kept), 0, remote.fetch);
      SyncUnfold(store, now, remote, live.value);
      RunFromDetailOnly(kept, NewIds(live.value, kept), 0, remote.fetch);
      TraceCounts(now, remote, run.calls);
    } else {
      ListingCallsCounts(now, remote);
    }
  }

  /** The listing calls followed by detail calls only: the listing and
      refresh counts are those of the listing calls. */
  lemma TraceCounts(now: int, remote: Remote, rest: seq<RemoteCall>)
    requires forall j :: 0 <= j < |rest| ==> rest[j].DetailCall?
    ensures var c := ListingCalls(now, remote) + rest;
      && ListCallCount(c) == (if remote.firstList.mentionsAuthError && remote.refreshOk then 2 else 1)
      && RefreshCallCount(c) == (if remote.firstList.mentionsAuthError then 1 else 0)
      && forall j :: 0 <= j < |c| && c[j].ListCall? ==> c[j] == ListCall(now - WindowSeconds, now)
  {
    var pre := ListingCalls(now, remote);
    ListingCallsCounts(now, remote);
    DetailOnlyCounts(rest);
    CountsAppend(pre, rest);
    var c := pre + rest;
    forall j | 0 <= j < |c| && c[j].ListCall? ensures c[j] == ListCall(now - WindowSeconds, now) {
      if j >= |pre| {
        assert false;
      }
    }
  }


  /** A listing reply that cannot be read ends the pass before the store is touched. */
  lemma SyncListingThrows(store: seq<Order>, now: int, remote: Remote)
    requires !RefreshFails(remote)
    requires LiveIds(ListingUsed(remote).body).None?
    ensures var r := SyncSpec(store, now, remote);
      r.store == store && r.outcome == Threw && SentBatches(r.calls) == []
  {
    ListingCallsCounts(now, remote);
  }

  /** The pass once the listing `live` is read: prune, then the batch loop over the new ids. */
  lemma SyncUnfold(store: seq<Order>, now: int, remote: Remote, live: seq<string>)
    requires !RefreshFails(remote)
    requires LiveIds(ListingUsed(remote).body) == Some(live)
    ensures var run := RunFrom(Pruned(store, live), NewIds(live, Pruned(store, live)), 0, remote.fetch);
      SyncSpec(store, now, remote) ==
        SyncRun(run.store, ListingCalls(now, remote) + run.calls, if run.threw then Threw else Completed)
  {
  }

  /** Once the listing `live` is read: the survivors of pruning come first,
      unchanged and in their old order, followed only by freshly synced
      orders, which are those built from the replies to the detail calls. */
  lemma SyncAfterListingStore(store: seq<Order>, now: int, remote: Remote, live: seq<string>)
    requires !RefreshFails(remote)
    requires LiveIds(ListingUsed(remote).body) == Some(live)
    ensures var r := SyncSpec(store, now, remote);
      var kept := Pruned(store, live);
      && r.outcome != AuthAborted
      && |kept| <= |r.store| && r.store[..|kept|] == kept
      && (forall o :: o in r.store[..|kept|] <==> o in store && !Stale(o, live))
      && (forall j :: |kept| <= j < |r.store| ==> SyncedFresh(r.store[j]))
      && r.store[|kept|..] == Added(SentBatches(r.calls), remote.fetch)
  {
    SyncStoresReplies(store, now, remote, live);
    SyncUnfold(store, now, remote, live);
    var kept := Pruned(store, live);
    RunFromStore(kept, NewIds(live, kept), 0, remote.fetch);
  }

  /** Once the listing is read, a pass ends in an exception exactly when
      the listing cannot be read or the reply to the last batch it sent
      throws; no earlier batch got a throwing reply, and the batches after
      it are never sent. */
  lemma SyncStops(store: seq<Order>, now: int, remote: Remote)
    requires !RefreshFails(remote)
    ensures var r := SyncSpec(store, now, remote);
      var sent := SentBatches(r.calls);
      && (forall k :: 0 <= k < |sent| - 1 ==> !Throws(remote.fetch(sent[k])))
      && (r.outcome == Threw <==>
           LiveIds(ListingUsed(remote).body).None? || (sent != [] && Throws(remote.fetch(sent[|sent| - 1]))))
      && r.outcome != AuthAborted
  {
    var pre := ListingCalls(now, remote);
    ListingCallsCounts(now, remote);
    var live := LiveIds(ListingUsed(remote).body);
    if live.Some? {
      SyncUnfold(store, now, remote, live.value);
      var kept := Pruned(store, live.value);
      var run := RunFrom(kept, NewIds(live.value, kept), 0, remote.fetch);
      RunFromStops(kept, NewIds(live.value, kept), 0, remote.fetch);
      CountsAppend(pre, run.calls);
      assert SentBatches(pre + run.calls) == SentBatches(run.calls);
    }
  }

  /** Once the listing `live` is read, the store after the pass is the
      survivors of pruning followed by exactly the orders built from the
      replies to the detail calls the pass made, in call order. */
  lemma SyncStoresReplies(store: seq<Order>, now: int, remote: Remote, live: seq<string>)
    requires !RefreshFails(remote)
    requires LiveIds(ListingUsed(remote).body) == Some(live)
    ensures var r := SyncSpec(store, now, remote);
      r.store == Pruned(store, live) + Added(SentBatches(r.calls), remote.fetch)
  {
    SyncUnfold(store, now, remote, live);
    var kept := Pruned(store, live);
    var run := RunFrom(kept, NewIds(live, kept), 0, remote.fetch);
    RunFromAdded(kept, NewIds(live, kept), 0, remote.fetch);
    var pre := ListingCalls(now, remote);
    ListingCallsCounts(now, remote);
    CountsAppend(pre, run.calls);
    assert SentBatches(pre + run.calls) == SentBatches(run.calls);
  }

  /** Once the listing `live` is read, the detail calls are the batches of the
      new ids in order, all of them when the pass completes; no new id means
      no detail call and no new order. */
  lemma SyncAfterListingCalls(store: seq<Order>, now: int, remote: Remote, live: seq<string>)
    requires !RefreshFails(remote)
    requires LiveIds(ListingUsed(remote).body) == Some(live)
    ensures var r := SyncSpec(store, now, remote);
      var kept := Pruned(store, live);
      var newIds := NewIds(live, kept);
      && SentBatches(r.calls) <= Batches(newIds)
      && (r.outcome == Completed ==> SentBatches(r.calls) == Batches(newIds))
      && (newIds == [] ==> r.store == kept && SentBatches(r.calls) == [] && r.outcome == Completed)
  {
    SyncUnfold(store, now, remote, live);
    var kept := Pruned(store, live);
    var newIds := NewIds(live, kept);
    var run := RunFrom(kept, newIds, 0, remote.fetch);
    var pre := ListingCalls(now, remote);
    RunFromCalls(kept, newIds, 0, remote.fetch);
    ListingCallsCounts(now, remote);
    CountsAppend(pre, run.calls);
    assert SentBatches(SyncSpec(store, now, remote).calls) == SentBatches(run.calls);
    assert Batches(newIds) == BatchesFrom(newIds, 0);
  }

  /** A processed order survives every pass, whatever the marketplace answers. */
  lemma SyncKeepsProcessed(store: seq<Order>, now: int, remote: Remote)
    ensures forall o :: o in store && o.status == StatusProcessed ==> o in SyncSpec(store, now, remote).store
  {
    var live := LiveIds(ListingUsed(remote).body);
    if !RefreshFails(remote) && live.Some? {
      SyncAfterListingStore(store, now, remote, live.value);
      var r := SyncSpec(store, now, remote);
      forall o | o in store && o.status == StatusProcessed ensures o in r.store {
        assert o in r.store[..|Pruned(store, live.value)|];
      }
    }
  }

  /** A pass adds only orders with status 0 and keeps the rest, so a store
      holding only the two known statuses keeps holding only them. */
  lemma SyncKeepsKnownStatus(store: seq<Order>, now: int, remote: Remote)
    requires forall j :: 0 <= j < |store| ==> KnownStatus(store[j].status)
    ensures var r := SyncSpec(store, now, remote);
      forall j :: 0 <= j < |r.store| ==> KnownStatus(r.store[j].status)
  {
    var live := LiveIds(ListingUsed(remote).body);
    if !RefreshFails(remote) && live.Some? {
      SyncAfterListingStore(store, now, remote, live.value);
      var r := SyncSpec(store, now, remote);
      var kept := Pruned(store, live.value);
      forall j | 0 <= j < |r.store| ensures KnownStatus(r.store[j].status) {
        if j < |kept| {
          assert r.store[j] in r.store[..|kept|];
        }
      }
    }
  }

  /** A listing reply without `response.order_list` reads as no live order,
      so such a pass removes every order with status 0. */
  lemma SyncEmptyListing(store: seq<Order>, now: int, remote: Remote)
    requires !RefreshFails(remote)
    requires ListingUsed(remote).body == ListWithoutOrders
    ensures var r := SyncSpec(store, now, remote);
      && r.outcome == Completed && SentBatches(r.calls) == []
      && (forall o :: o in r.store ==> o in store && o.status != StatusNew)
      && (forall o :: o in store && o.status != StatusNew ==> o in r.store)
  {
    SyncAfterListingStore(store, now, remote, []);
    SyncAfterListingCalls(store, now, remote, []);
    assert NewIds([], Pruned(store, [])) == [];
  }

  /** Ids stay unique across a pass when the store starts with unique ids,
      the ids the pass fetches (the new ids after pruning) are distinct and
      the detail replies are honest. Orders are appended without a duplicate
      check, so with honest replies a repeated new id is the one way the
      store can get two orders with the same id. */
  lemma SyncUniqueNewIds(store: seq<Order>, now: int, remote: Remote)
    requires UniqueIds(store) && HonestFetch(remote.fetch)
    requires var live := LiveIds(ListingUsed(remote).body);
      live.Some? ==> Distinct(NewIds(live.value, Pruned(store, live.value)))
    ensures UniqueIds(SyncSpec(store, now, remote).store)
  {
    var live := LiveIds(ListingUsed(remote).body);
    if !RefreshFails(remote) && live.Some? {
      SyncUnfold(store, now, remote, live.value);
      var kept := Pruned(store, live.value);
      var newIds := NewIds(live.value, kept);
      PrunedUnique(store, live.value);
      assert forall k :: 0 <= k < |newIds| ==> newIds[k] in newIds;
      RunFromUnique(kept, newIds, 0, remote.fetch);
    }
  }

  /** The same for a listing that repeats no id, which gives distinct new ids. */
  lemma SyncUnique(store: seq<Order>, now: int, remote: Remote)
    requires UniqueIds(store) && HonestFetch(remote.fetch)
    requires LiveIds(ListingUsed(remote).body).Some? ==> Distinct(LiveIds(ListingUsed(remote).body).value)
    ensures UniqueIds(SyncSpec(store, now, remote).store)
  {
    var live := LiveIds(ListingUsed(remote).body);
    if live.Some? {
      NewIdsDistinct(live.value, Pruned(store, live.value));
    }
    SyncUniqueNewIds(store, now, remote);
  }

}
