/** The stock store (hooks/useStockItems.ts): the parts inventory with add
    (which re-sorts the whole list by name), update and delete, its seed data
    and its write-through to the key-value store. `localeCompare` is the
    parameter `nameLe`, read "the first name may come before the second". */
module StockItems {
  import opened Types
  import opened Seqs
  import opened Sorting
  import opened Storage

  /** The four example items used when nothing usable is stored; they are
      not in name order. */
  const InitialStockItems: seq<StockItem> := [
    StockItem("st1", "Tela de iPhone 12", "IP12-SCR", 15, 550.0),
    StockItem("st2", "Bateria Samsung S20", "SAM20-BAT", 8, 250.0),
    StockItem("st3", "SSD 240GB Kingston", "KNG-SSD-240", 22, 180.5),
    StockItem("st4", "Memória RAM 8GB DDR4", "CRU-DDR4-8", 30, 210.0)
  ]

  /** The seed is well formed: four items with distinct ids and
      non-negative quantities and prices. */
  lemma SeedItemsWellFormed()
    ensures |InitialStockItems| == 4 && UniqueItemIds(InitialStockItems)
    ensures forall i :: 0 <= i < |InitialStockItems| ==>
              InitialStockItems[i].quantity >= 0 && InitialStockItems[i].price >= 0.0
  {
  }

  /** The store's state on start, and the key-value store after it. */
  function GetInitialStockState(store: Store, codec: Codec<seq<StockItem>>): (r: Loaded<seq<StockItem>>)
    ensures StockKey in store && store[StockKey] != "" && codec.decode(store[StockKey]).Some? ==>
              r.state == codec.decode(store[StockKey]).value && r.store == store
    ensures !(StockKey in store && store[StockKey] != "" && codec.decode(store[StockKey]).Some?) ==>
              r.state == InitialStockItems && StockKey in r.store && r.store[StockKey] == codec.encode(InitialStockItems)
  {
    LoadOrSeed(store, StockKey, codec, InitialStockItems)
  }

  /** The effect that writes the whole list after every change. */
  function PersistStock(store: Store, codec: Codec<seq<StockItem>>, items: seq<StockItem>, writeOk: bool): (r: Store)
    ensures writeOk ==> StockKey in r && r[StockKey] == codec.encode(items)
    ensures forall k :: k in store && k != StockKey ==> k in r && r[k] == store[k]
  {
    Persist(store, StockKey, codec, items, writeOk)
  }

  /** The comparator `addItem` sorts with: by name. */
  function ByName(nameLe: (string, string) -> bool): (StockItem, StockItem) -> bool
  {
    (a: StockItem, b: StockItem) => nameLe(a.name, b.name)
  }

  /** Sorted by name: every name may come before every later one. */
  ghost predicate SortedByName(items: seq<StockItem>, nameLe: (string, string) -> bool)
  {
    forall i, j :: 0 <= i < j < |items| ==> nameLe(items[i].name, items[j].name)
  }

  lemma ByNameIsPreorder(nameLe: (string, string) -> bool)
    requires TotalPreorder(nameLe)
    ensures TotalPreorder(ByName(nameLe))
  {
    var le := ByName(nameLe);
    forall a, b ensures le(a, b) || le(b, a) {
      assert le(a, b) == nameLe(a.name, b.name) && le(b, a) == nameLe(b.name, a.name);
    }
    forall a, b, c | le(a, b) && le(b, c) ensures le(a, c) {
      assert le(a, b) == nameLe(a.name, b.name) && le(b, c) == nameLe(b.name, c.name);
      assert le(a, c) == nameLe(a.name, c.name);
    }
  }

  /** The record `addItem` builds: the form data plus the generated id. */
  function NewItem(data: StockData, id: string): (it: StockItem)
    ensures it.id == id && it.name == data.name && it.sku == data.sku
    ensures it.quantity == data.quantity && it.price == data.price
  {
    StockItem(id, data.name, data.sku, data.quantity, data.price)
  }

  /** `addItem`: the new item joins the list and the whole list is sorted by
      name, whatever order it was in before. */
  function AddItem(items: seq<StockItem>, data: StockData, id: string,
                   nameLe: (string, string) -> bool): (r: seq<StockItem>)
    requires TotalPreorder(nameLe)
    ensures |r| == |items| + 1
    ensures multiset(r) == multiset(items) + multiset{NewItem(data, id)}
    ensures NewItem(data, id) in r
    ensures SortedByName(r, nameLe)
  {
    var r := Sort([NewItem(data, id)] + items, ByName(nameLe));
    ByNameIsPreorder(nameLe);
    SortSorted([NewItem(data, id)] + items, ByName(nameLe));
    assert NewItem(data, id) in multiset(r);
    r
  }

  /** The seed is not sorted by name under any collation that puts
      "Bateria ..." strictly before "Tela ...", so sortedness is not an
      invariant of the store: it holds right after an add. */
  lemma SeedNotSortedByName(nameLe: (string, string) -> bool)
    requires !nameLe("Tela de iPhone 12", "Bateria Samsung S20")
    ensures !SortedByName(InitialStockItems, nameLe)
  {
    assert InitialStockItems[0].name == "Tela de iPhone 12";
    assert InitialStockItems[1].name == "Bateria Samsung S20";
  }

  /** `updateItem`: every entry with the item's id becomes exactly that item;
      no re-sort, positions stay. */
  function UpdateItem(items: seq<StockItem>, updated: StockItem): (r: seq<StockItem>)
    ensures |r| == |items|
    ensures forall i :: 0 <= i < |r| ==> r[i].id == items[i].id
    ensures forall i :: 0 <= i < |r| && items[i].id != updated.id ==> r[i] == items[i]
    ensures forall i :: 0 <= i < |r| && items[i].id == updated.id ==> r[i] == updated
  {
    if items == [] then []
    else [if items[0].id == updated.id then updated else items[0]] + UpdateItem(items[1..], updated)
  }

  /** Updating an id that is not in the list changes nothing. */
  lemma UpdateItemAbsentIsNoOp(items: seq<StockItem>, updated: StockItem)
    requires forall i :: 0 <= i < |items| ==> items[i].id != updated.id
    ensures UpdateItem(items, updated) == items
  {
  }

  /** Writing back an entry unchanged changes nothing. */
  lemma UpdateWithSameItemIsNoOp(items: seq<StockItem>, k: int)
    requires UniqueItemIds(items)
    requires 0 <= k < |items|
    ensures UpdateItem(items, items[k]) == items
  {
  }

  /** The filter `deleteItem` applies. */
  function ItemOtherThan(id: string): StockItem -> bool
  {
    (it: StockItem) => it.id != id
  }

  /** `deleteItem`: every entry with the id goes, the others stay in order. */
  function DeleteItem(items: seq<StockItem>, id: string): (r: seq<StockItem>)
    ensures |r| <= |items|
    ensures forall i :: 0 <= i < |r| ==> r[i].id != id
    ensures forall it :: it in r <==> it in items && it.id != id
    ensures forall it :: multiset(r)[it] == if it.id != id then multiset(items)[it] else 0
  {
    var r := Filter(items, ItemOtherThan(id));
    forall it ensures it in r <==> it in items && it.id != id {
      FilterMembership(items, ItemOtherThan(id), it);
    }
    forall it ensures multiset(r)[it] == if it.id != id then multiset(items)[it] else 0 {
      FilterMultiset(items, ItemOtherThan(id), it);
    }
    r
  }

  /** Deleting from a concatenation deletes from each part: the items that
      stay keep their relative order. */
  lemma DeleteItemAppend(a: seq<StockItem>, b: seq<StockItem>, id: string)
    ensures DeleteItem(a + b, id) == DeleteItem(a, id) + DeleteItem(b, id)
  {
    FilterAppend(a, b, ItemOtherThan(id));
  }

  /** Deleting an id that is not in the list changes nothing. */
  lemma DeleteItemAbsentIsNoOp(items: seq<StockItem>, id: string)
    requires forall i :: 0 <= i < |items| ==> items[i].id != id
    ensures DeleteItem(items, id) == items
  {
    FilterKeepsAll(items, ItemOtherThan(id));
  }

  /** Removing the inserted element from an insertion gives back the
      sequence it was inserted into. */
  lemma {:induction false} DeleteInserted(x: StockItem, items: seq<StockItem>, le: (StockItem, StockItem) -> bool)
    requires forall i :: 0 <= i < |items| ==> items[i].id != x.id
    ensures Filter(Insert(x, items, le), ItemOtherThan(x.id)) == items
  {
    if items == [] || le(x, items[0]) {
      FilterAppend([x], items, ItemOtherThan(x.id));
      FilterKeepsAll(items, ItemOtherThan(x.id));
    } else {
      DeleteInserted(x, items[1..], le);
      FilterAppend([items[0]], Insert(x, items[1..], le), ItemOtherThan(x.id));
      assert items == [items[0]] + items[1..];
    }
  }

  /** On a list already sorted by name, deleting a just-added item (with a
      fresh id) restores the list exactly. */
  lemma DeleteUndoesAddOnSorted(items: seq<StockItem>, data: StockData, id: string,
                                nameLe: (string, string) -> bool)
    requires TotalPreorder(nameLe)
    requires SortedByName(items, nameLe)
    requires forall i :: 0 <= i < |items| ==> items[i].id != id
    ensures DeleteItem(AddItem(items, data, id, nameLe), id) == items
  {
    var x := NewItem(data, id);
    var le := ByName(nameLe);
    assert Sorted(items, le);
    SortOfSorted(items, le);
    assert [x] + items == [x] + items;
    assert ([x] + items)[1..] == items;
    assert Sort([x] + items, le) == Insert(x, Sort(items, le), le);
    DeleteInserted(x, items, le);
  }

  /** On any list, deleting a just-added item (with a fresh id) restores the
      same items, though possibly in name order instead of the old order. */
  lemma DeleteUndoesAddUpToOrder(items: seq<StockItem>, data: StockData, id: string,
                                 nameLe: (string, string) -> bool)
    requires TotalPreorder(nameLe)
    requires forall i :: 0 <= i < |items| ==> items[i].id != id
    ensures multiset(DeleteItem(AddItem(items, data, id, nameLe), id)) == multiset(items)
  {
    var r := AddItem(items, data, id, nameLe);
    forall it ensures multiset(DeleteItem(r, id))[it] == multiset(items)[it] {
      FilterMultiset(r, ItemOtherThan(id), it);
      if it.id == id {
        assert it !in items;
      }
    }
  }

  /** Ids stay unique under add with a fresh id. */
  lemma AddItemKeepsIdsUnique(items: seq<StockItem>, data: StockData, id: string,
                              nameLe: (string, string) -> bool)
    requires TotalPreorder(nameLe)
    requires UniqueItemIds(items)
    requires forall i :: 0 <= i < |items| ==> items[i].id != id
    ensures UniqueItemIds(AddItem(items, data, id, nameLe))
  {
    var t := [NewItem(data, id)] + items;
    forall i, j | 0 <= i < j < |t| ensures t[i].id != t[j].id {
      assert t[j] == items[j - 1];
      if i > 0 {
        assert t[i] == items[i - 1];
      }
    }
    PermutationKeepsIdsUnique(AddItem(items, data, id, nameLe), t);
  }

  /** Reordering a list with unique ids keeps them unique. */
  lemma PermutationKeepsIdsUnique(r: seq<StockItem>, t: seq<StockItem>)
    requires UniqueItemIds(t)
    requires multiset(r) == multiset(t)
    ensures UniqueItemIds(r)
  {
    forall i, j | 0 <= i < j < |r| ensures r[i].id != r[j].id {
      assert r[i] in multiset(t) && r[j] in multiset(t);
      var p :| 0 <= p < |t| && t[p] == r[i];
      var q :| 0 <= q < |t| && t[q] == r[j];
      if r[i] == r[j] {
        MultisetTwoPositions(r, i, j);
        MultisetAtMostOnce(t, p);
      } else {
        assert p != q;
      }
    }
  }

  /** An element at two positions of a sequence occurs at least twice. */
  lemma MultisetTwoPositions<T>(s: seq<T>, i: int, j: int)
    requires 0 <= i < j < |s| && s[i] == s[j]
    ensures multiset(s)[s[i]] >= 2
  {
    assert s == s[..i] + [s[i]] + s[i + 1..j] + [s[j]] + s[j + 1..];
  }

  /** With unique ids every item occurs at most once. */
  lemma MultisetAtMostOnce(items: seq<StockItem>, p: int)
    requires UniqueItemIds(items)
    requires 0 <= p < |items|
    ensures multiset(items)[items[p]] == 1
  {
    var before, after := items[..p], items[p + 1..];
    assert items == before + [items[p]] + after;
    forall k | 0 <= k < |before| ensures before[k] != items[p] {
      assert before[k] == items[k];
    }
    forall k | 0 <= k < |after| ensures after[k] != items[p] {
      assert after[k] == items[p + 1 + k];
    }
    assert items[p] !in before;
    assert items[p] !in after;
  }
}
