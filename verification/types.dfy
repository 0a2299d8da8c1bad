/** The records shared by the two stores and the pages that edit them
    (types.ts), plus the optional-value wrapper used for TypeScript's
    `T | null`, `T | undefined` and optional properties. */
module Types {

  /** `null`/`undefined` (None) or a present value (Some). */
  datatype Option<+T> = None | Some(value: T)

  /** The four states of a repair ticket. */
  datatype Status = Pending | InProgress | Completed | Cancelled

  /** Timestamps are milliseconds since the epoch: the source stores ISO
      strings and compares them through `new Date(..).getTime()`. */
  type Millis = int

  /** A repair ticket. `images` is an optional property in the source. */
  datatype ServiceOrder = ServiceOrder(
    id: string,
    clientName: string,
    device: string,
    issueDescription: string,
    status: Status,
    createdAt: Millis,
    updatedAt: Millis,
    images: Option<seq<string>>)

  /** `Omit<ServiceOrder, 'id' | 'createdAt' | 'updatedAt'>`: what the order
      form hands to the store. */
  datatype OrderData = OrderData(
    clientName: string,
    device: string,
    issueDescription: string,
    status: Status,
    images: Option<seq<string>>)

  /** An inventory record for a replacement part. `price` is a JavaScript
      number; it is only carried, never computed with. */
  datatype StockItem = StockItem(
    id: string,
    name: string,
    sku: string,
    quantity: int,
    price: real)

  /** `Omit<StockItem, 'id'>`. */
  datatype StockData = StockData(
    name: string,
    sku: string,
    quantity: int,
    price: real)

  /** JavaScript truthiness of an optional string: present and non-empty. */
  predicate Truthy(s: Option<string>)
  {
    s.Some? && s.value != ""
  }

  /** No two orders share an id. */
  ghost predicate UniqueOrderIds(orders: seq<ServiceOrder>)
  {
    forall i, j :: 0 <= i < j < |orders| ==> orders[i].id != orders[j].id
  }

  /** No two stock items share an id. */
  ghost predicate UniqueItemIds(items: seq<StockItem>)
  {
    forall i, j :: 0 <= i < j < |items| ==> items[i].id != items[j].id
  }
}
