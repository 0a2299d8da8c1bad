/** The stock page's logic (components/StockPage.tsx): saving the item form
    as an update or an add, and the confirmation before a delete. */
module StockPage {
  import opened Types
  import opened Sorting
  import opened StockItems

  /** The call a save makes on the stock store: exactly one of the two. */
  datatype StockCall = CallAdd(data: StockData) | CallUpdate(item: StockItem)

  /** `handleSaveItem`'s choice: a truthy (present, non-empty) id updates the
      item with that id, anything else adds. */
  function SaveItemCall(data: StockData, id: Option<string>): (c: StockCall)
    ensures c.CallUpdate? <==> Truthy(id)
    ensures c.CallUpdate? ==> c.item == StockItem(id.value, data.name, data.sku, data.quantity, data.price)
    ensures c.CallAdd? ==> c.data == data
  {
    if Truthy(id) then CallUpdate(StockItem(id.value, data.name, data.sku, data.quantity, data.price))
    else CallAdd(data)
  }

  /** The item form's state on the page. */
  datatype ItemEditor = ItemEditor(isOpen: bool, editing: Option<StockItem>)

  /** The store and the form after a save. */
  datatype SavedItems = SavedItems(items: seq<StockItem>, editor: ItemEditor)

  /** A save applied to the store, after which the form closes. `newId` is
      the id an add generates. */
  function SaveItem(items: seq<StockItem>, data: StockData, id: Option<string>, newId: string,
                    nameLe: (string, string) -> bool): (r: SavedItems)
    requires TotalPreorder(nameLe)
    ensures r.editor == ItemEditor(false, None)
    ensures Truthy(id) ==>
              && |r.items| == |items|
              && (forall i :: 0 <= i < |items| && items[i].id != id.value ==> r.items[i] == items[i])
              && (forall i :: 0 <= i < |items| && items[i].id == id.value ==>
                    r.items[i] == StockItem(id.value, data.name, data.sku, data.quantity, data.price))
    ensures !Truthy(id) ==>
              && multiset(r.items) == multiset(items) + multiset{NewItem(data, newId)}
              && SortedByName(r.items, nameLe)
  {
    var next := match SaveItemCall(data, id)
      case CallUpdate(item) => UpdateItem(items, item)
      case CallAdd(d) => AddItem(items, d, newId, nameLe);
    SavedItems(next, ItemEditor(false, None))
  }

  /** An empty id, as an item loaded with `id: ""` would give, adds rather
      than updates. */
  lemma EmptyIdAdds(data: StockData)
    ensures SaveItemCall(data, Some("")).CallAdd?
  {
  }

  /** `handleDeleteItem`: the store changes only when the user confirms. */
  function DeleteItemConfirmed(items: seq<StockItem>, id: string, confirmed: bool): (r: seq<StockItem>)
    ensures !confirmed ==> r == items
    ensures confirmed ==> forall it :: it in r <==> it in items && it.id != id
    ensures confirmed ==> forall it :: multiset(r)[it] == if it.id != id then multiset(items)[it] else 0
  {
    if confirmed then DeleteItem(items, id) else items
  }
}
