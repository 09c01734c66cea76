/**
 * Typed stand-ins for the marketplace replies that Program.cs reads as JSON,
 * and for the remote calls a sync pass makes. A property that the code reads
 * with `GetProperty` but that is missing from the reply is `None`: reading it
 * throws.
 */
module Payloads {
  import opened Basics
  import opened Models

  /** What `response.order_list` of an order-list reply holds: the reply does
      not parse, has no such list, or lists entries whose `order_sn` may be missing. */
  datatype ListBody = ListUnreadable | ListWithoutOrders | ListOrders(entries: seq<Option<string>>)

  /** An order-list reply; `mentionsAuthError` is whether its text contains "error_auth". */
  datatype ListReply = ListReply(mentionsAuthError: bool, body: ListBody)

  /** `model_sku`: missing (reading it throws), JSON null, or a string. */
  datatype SkuField = SkuMissing | SkuNull | Sku(text: string)

  /** One entry of an order's `item_list`. */
  datatype ItemRecord = ItemRecord(
    itemId: Option<Int64>,
    itemName: Option<string>,
    modelName: Option<string>,
    imageUrl: Option<string>,   // image_info.image_url
    quantity: Option<Int32>,    // model_quantity_purchased
    modelSku: SkuField)

  /** One entry of a detail reply's `order_list`. */
  datatype OrderRecord = OrderRecord(
    orderSn: Option<string>,
    createTime: Option<Int64>,
    itemList: Option<seq<ItemRecord>>)

  /** An order-detail reply: does not parse, has no `response.order_list`, or has one. */
  datatype DetailReply = DetailUnreadable | DetailWithoutOrders | DetailOrders(records: seq<OrderRecord>)

  /** The remote calls of one pass, in the order they are made. */
  datatype RemoteCall = ListCall(from: int, to: int) | RefreshCall | DetailCall(ids: seq<string>)

  /** The marketplace as one pass sees it: the first listing reply, whether a
      token refresh succeeds, the reply to the listing retried after it, and
      the detail reply for each batch of ids. */
  datatype Remote = Remote(
    firstList: ListReply,
    refreshOk: bool,
    retryList: ListReply,
    fetch: seq<string> -> DetailReply)
}
