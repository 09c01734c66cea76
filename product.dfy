/**
 * The product lookup of `/api/product` (Program.cs:156-199): the item's
 * name and, for each of its models, the model name, its available stock and
 * the item's first image. The reply of the marketplace is given; a property
 * read with `GetProperty` but missing throws (`None`), and the listener then
 * writes no body.
 */
module Product {
  import opened Basics
  import opened Models

  datatype StockSummary = StockSummary(totalAvailableStock: Option<Int32>)
  datatype StockInfoV2 = StockInfoV2(summaryInfo: Option<StockSummary>)
  datatype LegacyStock = LegacyStock(normalStock: Option<Int32>)

  /** One entry of `model_list`. */
  datatype ModelRecord = ModelRecord(
    modelName: Option<string>,
    stockInfoV2: Option<StockInfoV2>,
    stockInfo: Option<seq<LegacyStock>>)

  /** One entry of `item_list`; `imageUrls` is `image.image_url_list`. */
  datatype ItemInfo = ItemInfo(
    itemName: Option<string>,
    imageUrls: Option<seq<string>>,
    modelList: Option<seq<ModelRecord>>)

  /** The item-info reply: does not parse, has no `response.item_list`, or has one. */
  datatype ItemReply = ItemUnreadable | ItemWithoutList | ItemList(items: seq<ItemInfo>)

  datatype Variation = Variation(name: string, stock: Int32, img: string)

  /** The JSON object written back: `{success, name, variations}`. */
  datatype ProductView = ProductView(success: bool, name: string, variations: seq<Variation>)

  /** `stock_info_v2.summary_info` is present. */
  predicate HasSummary(m: ModelRecord)
  {
    m.stockInfoV2.Some? && m.stockInfoV2.value.summaryInfo.Some?
  }

  /** The stock of a model: the v2 summary's `total_available_stock` if the
      summary exists, else the first legacy entry's `normal_stock` if
      `stock_info` exists, else 0. `None` is a throw: a missing stock
      property, or an empty legacy list (`First()`). */
  function StockOf(m: ModelRecord): (r: Option<Int32>)
    ensures HasSummary(m) ==> r == m.stockInfoV2.value.summaryInfo.value.totalAvailableStock
    ensures !HasSummary(m) && m.stockInfo.Some? && m.stockInfo.value != [] ==> r == m.stockInfo.value[0].normalStock
    ensures !HasSummary(m) && m.stockInfo == Some([]) ==> r.None?
    ensures !HasSummary(m) && m.stockInfo.None? ==> r == Some(0)
  {
    if HasSummary(m) then m.stockInfoV2.value.summaryInfo.value.totalAvailableStock
    else if m.stockInfo.Some? then
      if |m.stockInfo.value| == 0 then None else m.stockInfo.value[0].normalStock
    else Some(0)
  }

  /** The legacy stock is never read when the v2 summary exists, and only
      its first entry is ever read. */
  lemma StockSources(m: ModelRecord, legacy: Option<seq<LegacyStock>>, rest: seq<LegacyStock>)
    ensures HasSummary(m) ==> StockOf(m.(stockInfo := legacy)) == StockOf(m)
    ensures m.stockInfo.Some? && m.stockInfo.value != [] ==>
      StockOf(m.(stockInfo := Some([m.stockInfo.value[0]] + rest))) == StockOf(m)
  {
  }

  /** The anonymous `{ name, stock, img }` of one model. */
  function VariationOf(m: ModelRecord, defImg: string): (r: Option<Variation>)
    ensures r.Some? <==> m.modelName.Some? && StockOf(m).Some?
    ensures r.Some? ==> r.value == Variation(m.modelName.value, StockOf(m).value, defImg)
  {
    if m.modelName.None? then None
    else match StockOf(m)
      case None => None
      case Some(stock) => Some(Variation(m.modelName.value, stock, defImg))
  }

  /** The variations of all models, in model order; `None` if one throws. */
  function VariationsOf(models: seq<ModelRecord>, defImg: string): (r: Option<seq<Variation>>)
    ensures r.None? <==> exists j :: 0 <= j < |models| && VariationOf(models[j], defImg).None?
    ensures r.Some? ==>
      && |r.value| == |models|
      && forall j :: 0 <= j < |models| ==> VariationOf(models[j], defImg) == Some(r.value[j])
  {
    if forall j :: 0 <= j < |models| ==> VariationOf(models[j], defImg).Some? then
      Some(seq(|models|, j requires 0 <= j < |models| => VariationOf(models[j], defImg).value))
    else None
  }

  /** The `foreach (var m in ms) vars.Add(...)` loop. */
  method ReadVariations(models: seq<ModelRecord>, defImg: string) returns (r: Option<seq<Variation>>)
    ensures r == VariationsOf(models, defImg)
  {
    var vars: seq<Variation> := [];
    var i := 0;
    while i < |models|
      invariant 0 <= i <= |models|
      invariant forall j :: 0 <= j < i ==> VariationOf(models[j], defImg).Some?
      invariant vars == seq(i, j requires 0 <= j < i => VariationOf(models[j], defImg).value)
    {
      var v := VariationOf(models[i], defImg);
      if v.None? {
        return None;
      }
      vars := vars + [v.value];
      i := i + 1;
    }
    return Some(vars);
  }

  /** The reply written for an item-info reply; `None` when reading it throws. */
  function ProductSpec(reply: ItemReply): (r: Option<ProductView>)
    ensures r.Some? <==>
      && !reply.ItemUnreadable?
      && (reply.ItemList? && reply.items != [] ==>
            var item := reply.items[0];
            && item.itemName.Some? && item.imageUrls.Some? && item.imageUrls.value != []
            && (item.modelList.Some? ==> VariationsOf(item.modelList.value, item.imageUrls.value[0]).Some?))
    ensures r.None? ==> reply.ItemUnreadable? || (reply.ItemList? && reply.items != [])
    ensures r.Some? && !r.value.success ==> r.value.name == "" && r.value.variations == []
    ensures r.Some? && r.value.success ==> reply.ItemList? && reply.items != [] && reply.items[0].itemName == Some(r.value.name)
  {
    match reply
    case ItemUnreadable => None
    case ItemWithoutList => Some(ProductView(false, "", []))
    case ItemList(items) =>
      if items == [] then Some(ProductView(false, "", []))
      else
        var item := items[0];
        if item.itemName.None? || item.imageUrls.None? || item.imageUrls.value == [] then None
        else if item.modelList.None? then Some(ProductView(true, item.itemName.value, []))
        else match VariationsOf(item.modelList.value, item.imageUrls.value[0])
          case None => None
          case Some(vars) => Some(ProductView(true, item.itemName.value, vars))
  }

  /** `/api/product` once the id parsed and the marketplace answered. */
  method LookupProduct(reply: ItemReply) returns (r: Option<ProductView>)
    ensures r == ProductSpec(reply)
  {
    r := Some(ProductView(false, "", []));
    if reply.ItemUnreadable? {
      return None;
    }
    if reply.ItemList? && |reply.items| > 0 {
      var item := reply.items[0];
      if item.itemName.None? || item.imageUrls.None? || |item.imageUrls.value| == 0 {
        return None;
      }
      var defImg := item.imageUrls.value[0];
      var vars: seq<Variation> := [];
      if item.modelList.Some? {
        var read := ReadVariations(item.modelList.value, defImg);
        if read.None? {
          return None;
        }
        vars := read.value;
      }
      r := Some(ProductView(true, item.itemName.value, vars));
    }
  }

  /** A successful lookup describes the first listed item: its name, and per
      model, in order, the model's name and stock by the stock rule and the
      item's first image; an unsuccessful one is empty. */
  lemma ProductSpecShape(reply: ItemReply)
    requires ProductSpec(reply).Some?
    ensures var v := ProductSpec(reply).value;
      && (v.success <==> reply.ItemList? && reply.items != [])
      && (!v.success ==> v.name == "" && v.variations == [])
      && (v.success ==>
            var item := reply.items[0];
            && v.name == item.itemName.value
            && |v.variations| == (if item.modelList.Some? then |item.modelList.value| else 0)
            && forall j :: 0 <= j < |v.variations| ==>
                 && Some(v.variations[j].stock) == StockOf(item.modelList.value[j])
                 && Some(v.variations[j].name) == item.modelList.value[j].modelName
                 && v.variations[j].img == item.imageUrls.value[0])
  {
  }
}
