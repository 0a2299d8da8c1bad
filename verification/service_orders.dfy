/** The service-order store (hooks/useServiceOrders.ts): the list of repair
    tickets, newest insertion first, with add, update and delete, its seed
    data and its write-through to the key-value store. The clock and the
    generated id are parameters. */
module ServiceOrders {
  import opened Types
  import opened Seqs
  import opened Storage

  /** The three example orders used when nothing usable is stored. */
  const InitialServiceOrders: seq<ServiceOrder> := [
    ServiceOrder("1", "João Silva", "Laptop Dell Inspiron 15",
                 "Não liga, sem sinal de energia.", Pending,
                 1698314400000, 1698314400000, None),
    ServiceOrder("2", "Maria Oliveira", "iPhone 12 Pro",
                 "Tela quebrada após queda.", InProgress,
                 1698244200000, 1698404400000, None),
    ServiceOrder("3", "Carlos Pereira", "Samsung Galaxy S21",
                 "Bateria não segura carga.", Completed,
                 1697792400000, 1698166800000, None)
  ]

  /** The seed is well formed: three orders with distinct ids, each
      updated no earlier than it was created. */
  lemma SeedOrdersWellFormed()
    ensures |InitialServiceOrders| == 3 && UniqueOrderIds(InitialServiceOrders)
    ensures forall i :: 0 <= i < |InitialServiceOrders| ==>
              InitialServiceOrders[i].createdAt <= InitialServiceOrders[i].updatedAt
    ensures forall i :: 0 <= i < |InitialServiceOrders| ==> InitialServiceOrders[i].images.None?
  {
  }

  /** The store's state on start, and the key-value store after it. */
  function GetInitialState(store: Store, codec: Codec<seq<ServiceOrder>>): (r: Loaded<seq<ServiceOrder>>)
    ensures OrdersKey in store && store[OrdersKey] != "" && codec.decode(store[OrdersKey]).Some? ==>
              r.state == codec.decode(store[OrdersKey]).value && r.store == store
    ensures !(OrdersKey in store && store[OrdersKey] != "" && codec.decode(store[OrdersKey]).Some?) ==>
              r.state == InitialServiceOrders && OrdersKey in r.store && r.store[OrdersKey] == codec.encode(InitialServiceOrders)
  {
    LoadOrSeed(store, OrdersKey, codec, InitialServiceOrders)
  }

  /** The effect that writes the whole list after every change. */
  function PersistOrders(store: Store, codec: Codec<seq<ServiceOrder>>, orders: seq<ServiceOrder>, writeOk: bool): (r: Store)
    ensures writeOk ==> OrdersKey in r && r[OrdersKey] == codec.encode(orders)
    ensures forall k :: k in store && k != OrdersKey ==> k in r && r[k] == store[k]
  {
    Persist(store, OrdersKey, codec, orders, writeOk)
  }

  /** A list persisted by the effect is the list the next start reads. */
  lemma OrdersSurviveRestart(store: Store, codec: Codec<seq<ServiceOrder>>, orders: seq<ServiceOrder>)
    requires RoundTrips(codec, orders)
    ensures GetInitialState(PersistOrders(store, codec, orders, true), codec).state == orders
  {
    PersistThenLoad(store, OrdersKey, codec, orders, InitialServiceOrders);
  }

  /** The record `addOrder` builds: the form data plus id and timestamps. */
  function NewOrder(data: OrderData, id: string, now: Millis): (o: ServiceOrder)
    ensures o.id == id && o.createdAt == now && o.updatedAt == now
    ensures o.clientName == data.clientName && o.device == data.device
    ensures o.issueDescription == data.issueDescription
    ensures o.status == data.status && o.images == data.images
  {
    ServiceOrder(id, data.clientName, data.device, data.issueDescription,
                 data.status, now, now, data.images)
  }

  /** `addOrder`: the new order goes in front of the existing ones. */
  function AddOrder(orders: seq<ServiceOrder>, data: OrderData, id: string, now: Millis): (r: seq<ServiceOrder>)
    ensures |r| == |orders| + 1
    ensures r[0] == NewOrder(data, id, now) && r[0].createdAt == r[0].updatedAt
    ensures r[1..] == orders
  {
    [NewOrder(data, id, now)] + orders
  }

  /** `addOrder` as written: `createdAt` and `updatedAt` come from two
      separate readings of the clock. */
  function AddOrderAsWritten(orders: seq<ServiceOrder>, data: OrderData, id: string,
                             createdClock: Millis, updatedClock: Millis): (r: seq<ServiceOrder>)
    ensures |r| == |orders| + 1 && r[1..] == orders
    ensures r[0].createdAt == createdClock && r[0].updatedAt == updatedClock
  {
    [ServiceOrder(id, data.clientName, data.device, data.issueDescription,
                  data.status, createdClock, updatedClock, data.images)] + orders
  }

  /** When the clock ticks between the two readings the new order's
      timestamps differ. */
  lemma AddOrderTimestampsCanDiffer(data: OrderData)
    ensures var r := AddOrderAsWritten([], data, "1698314400000-0.5", 1698314400000, 1698314400001);
            r[0].createdAt != r[0].updatedAt
  {
  }

  /** With a single clock reading the written form is the corrected one. */
  lemma AddOrderAsWrittenAgrees(orders: seq<ServiceOrder>, data: OrderData, id: string, now: Millis)
    ensures AddOrderAsWritten(orders, data, id, now, now) == AddOrder(orders, data, id, now)
  {
  }

  /** The replacement `updateOrder` makes for one matching entry. */
  function Stamped(updated: ServiceOrder, now: Millis): ServiceOrder
  {
    updated.(updatedAt := now)
  }

  /** `updateOrder`: every entry with the updated order's id becomes that
      order with a fresh `updatedAt`; the others are kept; positions stay. */
  function UpdateOrder(orders: seq<ServiceOrder>, updated: ServiceOrder, now: Millis): (r: seq<ServiceOrder>)
    ensures |r| == |orders|
    ensures forall i :: 0 <= i < |r| ==> r[i].id == orders[i].id
    ensures forall i :: 0 <= i < |r| && orders[i].id != updated.id ==> r[i] == orders[i]
    ensures forall i :: 0 <= i < |r| && orders[i].id == updated.id ==> r[i] == Stamped(updated, now)
  {
    if orders == [] then []
    else
      var head := if orders[0].id == updated.id then Stamped(updated, now) else orders[0];
      [head] + UpdateOrder(orders[1..], updated, now)
  }

  /** Updating an id that is not in the list changes nothing. */
  lemma UpdateAbsentIsNoOp(orders: seq<ServiceOrder>, updated: ServiceOrder, now: Millis)
    requires forall i :: 0 <= i < |orders| ==> orders[i].id != updated.id
    ensures UpdateOrder(orders, updated, now) == orders
  {
  }

  /** Repeating the same update at the same time changes nothing more. */
  lemma UpdateIdempotent(orders: seq<ServiceOrder>, updated: ServiceOrder, now: Millis)
    ensures UpdateOrder(UpdateOrder(orders, updated, now), updated, now) == UpdateOrder(orders, updated, now)
  {
  }

  /** The first order with the given id, if any: what a reader of the list
      finds under that id. */
  function FindOrder(orders: seq<ServiceOrder>, id: string): (r: Option<ServiceOrder>)
    ensures r.None? <==> forall i :: 0 <= i < |orders| ==> orders[i].id != id
    ensures r.Some? ==> r.value in orders && r.value.id == id
  {
    if orders == [] then None
    else if orders[0].id == id then Some(orders[0])
    else FindOrder(orders[1..], id)
  }

  /** An update followed by a read of its id returns the updated order with
      the new `updatedAt`, provided the id is in the list. */
  lemma {:induction false} UpdateThenFind(orders: seq<ServiceOrder>, updated: ServiceOrder, now: Millis)
    requires exists i :: 0 <= i < |orders| && orders[i].id == updated.id
    ensures FindOrder(UpdateOrder(orders, updated, now), updated.id) == Some(Stamped(updated, now))
  {
    var r := UpdateOrder(orders, updated, now);
    if orders[0].id != updated.id {
      var i :| 0 <= i < |orders| && orders[i].id == updated.id;
      assert orders[1..][i - 1].id == updated.id;
      UpdateThenFind(orders[1..], updated, now);
      assert r[1..] == UpdateOrder(orders[1..], updated, now);
    }
  }

  /** The filter `deleteOrder` applies. */
  function OtherThan(id: string): ServiceOrder -> bool
  {
    (o: ServiceOrder) => o.id != id
  }

  /** `deleteOrder`: every entry with the id goes, the others stay in order. */
  function DeleteOrder(orders: seq<ServiceOrder>, id: string): (r: seq<ServiceOrder>)
    ensures |r| <= |orders|
    ensures forall i :: 0 <= i < |r| ==> r[i].id != id
    ensures forall o :: o in r <==> o in orders && o.id != id
    ensures forall o :: multiset(r)[o] == if o.id != id then multiset(orders)[o] else 0
  {
    var r := Filter(orders, OtherThan(id));
    forall o ensures o in r <==> o in orders && o.id != id {
      FilterMembership(orders, OtherThan(id), o);
    }
    forall o ensures multiset(r)[o] == if o.id != id then multiset(orders)[o] else 0 {
      FilterMultiset(orders, OtherThan(id), o);
    }
    r
  }

  /** Deleting from a concatenation deletes from each part: the orders that
      stay keep their relative order. */
  lemma DeleteOrderAppend(a: seq<ServiceOrder>, b: seq<ServiceOrder>, id: string)
    ensures DeleteOrder(a + b, id) == DeleteOrder(a, id) + DeleteOrder(b, id)
  {
    FilterAppend(a, b, OtherThan(id));
  }

  /** Deleting an id that is not in the list changes nothing. */
  lemma DeleteAbsentIsNoOp(orders: seq<ServiceOrder>, id: string)
    requires forall i :: 0 <= i < |orders| ==> orders[i].id != id
    ensures DeleteOrder(orders, id) == orders
  {
    FilterKeepsAll(orders, OtherThan(id));
  }

  /** Deleting twice is deleting once. */
  lemma DeleteIdempotent(orders: seq<ServiceOrder>, id: string)
    ensures DeleteOrder(DeleteOrder(orders, id), id) == DeleteOrder(orders, id)
  {
    FilterIdempotent(orders, OtherThan(id));
  }

  /** With unique ids, deleting a present id removes exactly one entry. */
  lemma {:induction false} DeletePresentRemovesOne(orders: seq<ServiceOrder>, id: string)
    requires UniqueOrderIds(orders)
    requires exists i :: 0 <= i < |orders| && orders[i].id == id
    ensures |DeleteOrder(orders, id)| == |orders| - 1
  {
    var t := orders[1..];
    assert UniqueOrderIds(t) by {
      forall i, j | 0 <= i < j < |t| ensures t[i].id != t[j].id {
        assert t[i] == orders[i + 1] && t[j] == orders[j + 1];
      }
    }
    assert Filter(orders, OtherThan(id)) ==
           (if orders[0].id != id then [orders[0]] else []) + Filter(t, OtherThan(id));
    if orders[0].id == id {
      forall i | 0 <= i < |t| ensures t[i].id != id {
        assert t[i] == orders[i + 1];
      }
      DeleteAbsentIsNoOp(t, id);
    } else {
      var i :| 0 <= i < |orders| && orders[i].id == id;
      assert t[i - 1].id == id;
      DeletePresentRemovesOne(t, id);
    }
  }

  /** Deleting a just-added order with a fresh id restores the list. */
  lemma DeleteUndoesAdd(orders: seq<ServiceOrder>, data: OrderData, id: string, now: Millis)
    requires forall i :: 0 <= i < |orders| ==> orders[i].id != id
    ensures DeleteOrder(AddOrder(orders, data, id, now), id) == orders
  {
    FilterAppend([NewOrder(data, id, now)], orders, OtherThan(id));
    DeleteAbsentIsNoOp(orders, id);
  }

  /** Ids stay unique under add (with a fresh id), update and delete. */
  lemma AddKeepsIdsUnique(orders: seq<ServiceOrder>, data: OrderData, id: string, now: Millis)
    requires UniqueOrderIds(orders)
    requires forall i :: 0 <= i < |orders| ==> orders[i].id != id
    ensures UniqueOrderIds(AddOrder(orders, data, id, now))
  {
    var r := AddOrder(orders, data, id, now);
    forall i, j | 0 <= i < j < |r| ensures r[i].id != r[j].id {
      assert r[j] == orders[j - 1];
      if i > 0 {
        assert r[i] == orders[i - 1];
      }
    }
  }

  lemma UpdateKeepsIdsUnique(orders: seq<ServiceOrder>, updated: ServiceOrder, now: Millis)
    requires UniqueOrderIds(orders)
    ensures UniqueOrderIds(UpdateOrder(orders, updated, now))
  {
  }

  lemma {:induction false} DeleteKeepsIdsUnique(orders: seq<ServiceOrder>, id: string)
    requires UniqueOrderIds(orders)
    ensures UniqueOrderIds(DeleteOrder(orders, id))
  {
    if orders != [] {
      var t := orders[1..];
      assert UniqueOrderIds(t) by {
        forall i, j | 0 <= i < j < |t| ensures t[i].id != t[j].id {
          assert t[i] == orders[i + 1] && t[j] == orders[j + 1];
        }
      }
      DeleteKeepsIdsUnique(t, id);
      var rest := DeleteOrder(t, id);
      var r := DeleteOrder(orders, id);
      assert r == (if orders[0].id != id then [orders[0]] else []) + rest;
      forall k | 0 <= k < |rest| ensures rest[k].id != orders[0].id {
        assert rest[k] in t;
      }
    }
  }
}
