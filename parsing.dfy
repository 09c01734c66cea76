/**
 * Building `Order` and `OrderItem` values from detail records
 * (Program.cs:82-99). Every required property is read with `GetProperty`,
 * which throws when it is missing; a throw is `None` here.
 */
module Parsing {
  import opened Basics
  import opened Models
  import opened Payloads
  import opened Location

  /** Every property the item initialiser reads is present. */
  predicate ItemComplete(rec: ItemRecord)
  {
    rec.itemId.Some? && rec.itemName.Some? && rec.modelName.Some?
    && rec.imageUrl.Some? && rec.quantity.Some? && !rec.modelSku.SkuMissing?
  }

  /** `model_sku` with a JSON null read as the empty string (`?? ""`). */
  function SkuText(f: SkuField): (t: string)
    requires !f.SkuMissing?
    ensures f.SkuNull? ==> t == ""
    ensures f.Sku? ==> t == f.text
  {
    if f.Sku? then f.text else ""
  }

  /** The `new OrderItem { ... }` of one item record. */
  function ItemFromRecord(rec: ItemRecord): (r: Option<OrderItem>)
    ensures r.Some? <==> ItemComplete(rec)
    ensures r.Some? ==>
      && r.value.modelName == rec.modelName.value
      && r.value.productName == rec.itemName.value
      && r.value.itemId == rec.itemId.value
      && r.value.imageUrl == rec.imageUrl.value
      && r.value.quantity == rec.quantity.value
      && r.value.location == LocationOf(rec.modelName.value)
      && (rec.modelSku.SkuNull? ==> r.value.sku == "")
      && (rec.modelSku.Sku? ==> r.value.sku == rec.modelSku.text)
      && HasPickingDefaults(r.value)
  {
    if !ItemComplete(rec) then None
    else
      var name := rec.modelName.value;
      Some(DefaultItem().(
        itemId := rec.itemId.value,
        productName := rec.itemName.value,
        modelName := name,
        imageUrl := rec.imageUrl.value,
        quantity := rec.quantity.value,
        sku := SkuText(rec.modelSku),
        location := LocationOf(name)))
  }

  /** The items of an order, in record order; `None` if any record lacks a property. */
  function ItemsFromRecords(recs: seq<ItemRecord>): (r: Option<seq<OrderItem>>)
  {
    if forall j :: 0 <= j < |recs| ==> ItemFromRecord(recs[j]).Some? then
      Some(seq(|recs|, j requires 0 <= j < |recs| => ItemFromRecord(recs[j]).value))
    else None
  }

  /** The order built from one detail record, before it is added to the store. */
  function OrderFromRecord(rec: OrderRecord): (r: Option<Order>)
    ensures r.Some? ==> rec.orderSn.Some? && rec.createTime.Some? && rec.itemList.Some?
    ensures r.Some? ==> r.value.status == StatusNew && |r.value.items| == |rec.itemList.value|
  {
    if rec.orderSn.None? || rec.createTime.None? || rec.itemList.None? then None
    else match ItemsFromRecords(rec.itemList.value)
      case None => None
      case Some(items) =>
        Some(DefaultOrder().(
          orderId := rec.orderSn.value,
          createdAt := rec.createTime.value,
          status := StatusNew,
          items := items))
  }

  /** What the sync path builds is a fresh order and fresh items with only the
      properties read from the record set. */
  lemma {:induction false} OrderFromRecordSpec(rec: OrderRecord)
    ensures OrderFromRecord(rec).Some? <==>
      rec.orderSn.Some? && rec.createTime.Some? && rec.itemList.Some?
      && forall j :: 0 <= j < |rec.itemList.value| ==> ItemComplete(rec.itemList.value[j])
    ensures OrderFromRecord(rec).Some? ==>
      var o := OrderFromRecord(rec).value;
      o.orderId == rec.orderSn.value && o.createdAt == rec.createTime.value
      && o.status == StatusNew && o.assignedTo == "" && !o.selected
      && |o.items| == |rec.itemList.value|
      && forall j :: 0 <= j < |o.items| ==>
           Some(o.items[j]) == ItemFromRecord(rec.itemList.value[j]) && HasPickingDefaults(o.items[j])
  {
    if rec.itemList.Some? {
      var recs := rec.itemList.value;
      if forall j :: 0 <= j < |recs| ==> ItemFromRecord(recs[j]).Some? {
        assert forall j :: 0 <= j < |recs| ==> ItemComplete(recs[j]);
      } else {
        var j :| 0 <= j < |recs| && ItemFromRecord(recs[j]).None?;
        assert !ItemComplete(recs[j]);
      }
    }
  }

  /** The `foreach (var it ...) ord.Items.Add(...)` loop of one order record. */
  method BuildOrder(rec: OrderRecord) returns (r: Option<Order>)
    ensures r == OrderFromRecord(rec)
  {
    if rec.orderSn.None? || rec.createTime.None? || rec.itemList.None? {
      return None;
    }
    var ord := DefaultOrder().(orderId := rec.orderSn.value, createdAt := rec.createTime.value, status := StatusNew);
    var recs := rec.itemList.value;
    var i := 0;
    while i < |recs|
      invariant 0 <= i <= |recs|
      invariant forall j :: 0 <= j < i ==> ItemFromRecord(recs[j]).Some?
      invariant ord == DefaultOrder().(orderId := rec.orderSn.value, createdAt := rec.createTime.value,
                         status := StatusNew, items := seq(i, j requires 0 <= j < i => ItemFromRecord(recs[j]).value))
    {
      var it := ItemFromRecord(recs[i]);
      if it.None? {
        return None;
      }
      ord := ord.(items := ord.items + [it.value]);
      i := i + 1;
    }
    return Some(ord);
  }

  /** The result of adding the orders of one detail reply: the orders built
      before the first record that throws, and whether none threw. */
  datatype BatchParse = BatchParse(built: seq<Order>, ok: bool)

  function ParseBatch(recs: seq<OrderRecord>): (r: BatchParse)
    ensures |r.built| <= |recs|
    ensures r.ok <==> |r.built| == |recs|
    decreases |recs|
  {
    if recs == [] then BatchParse([], true)
    else match OrderFromRecord(recs[0])
      case None => BatchParse([], false)
      case Some(o) =>
        var rest := ParseBatch(recs[1..]);
        BatchParse([o] + rest.built, rest.ok)
  }

  /** ParseBatch on the records from `i` on, one record unfolded. */
  lemma ParseBatchStep(recs: seq<OrderRecord>, i: nat)
    requires i < |recs|
    ensures OrderFromRecord(recs[i]).None? ==> ParseBatch(recs[i..]) == BatchParse([], false)
    ensures OrderFromRecord(recs[i]).Some? ==>
      ParseBatch(recs[i..]) == BatchParse([OrderFromRecord(recs[i]).value] + ParseBatch(recs[i + 1..]).built,
                                          ParseBatch(recs[i + 1..]).ok)
  {
    assert recs[i..][0] == recs[i] && recs[i..][1..] == recs[i + 1..];
  }

  /** The orders added from a reply are those of its records up to the first
      record that throws, one per record and in record order. */
  lemma {:induction false} ParseBatchSpec(recs: seq<OrderRecord>)
    ensures forall j :: 0 <= j < |ParseBatch(recs).built| ==> OrderFromRecord(recs[j]) == Some(ParseBatch(recs).built[j])
    ensures !ParseBatch(recs).ok ==> OrderFromRecord(recs[|ParseBatch(recs).built|]).None?
    decreases |recs|
  {
    if recs != [] && OrderFromRecord(recs[0]).Some? {
      ParseBatchSpec(recs[1..]);
    }
  }
}
