/** The order page's logic (components/DashboardPage.tsx): the displayed
    list derived from the store by status filter, search term and creation
    date order; saving the order form as an update or an add; the
    confirmation before a delete; and the auto-logout timings.
    `toLowerCase` is the parameter `lower`. */
module Dashboard {
  import opened Types
  import opened Seqs
  import opened Sorting
  import opened Text
  import opened ServiceOrders
  import opened OrderModal
  import IdleTimeout

  /** The auto-logout timings: 15 minutes idle, then a 30 second prompt. */
  const IdleSettings: IdleTimeout.Config := IdleTimeout.Config(15 * 60 * 1000, 30 * 1000)

  /** With these timings the countdown runs over whole seconds, where the
      source's tick and the floored tick agree. */
  /** On the page, the countdown shown by the hook as written is never
      negative, whatever the events. */
  lemma PageCountdownNeverNegative(events: seq<IdleTimeout.Event>)
    ensures IdleTimeout.RunAsWritten(IdleSettings, IdleTimeout.Mount(IdleSettings), events).hook.remaining >= 0.0
  {
    PageHookRunsAsWritten(events);
    IdleTimeout.MountSatisfiesInv(IdleSettings);
    IdleTimeout.RunKeepsInv(IdleSettings, IdleTimeout.Mount(IdleSettings), events);
  }

  lemma IdleSettingsCountWholeSeconds()
    ensures IdleTimeout.PromptSeconds(IdleSettings) == 30.0
  {
  }

  /** The page's prompt is a whole number of seconds, so on every run the
      hook as written behaves exactly as the modelled hook, and the
      invariant (the countdown never negative) holds for it. */
  lemma PageHookRunsAsWritten(events: seq<IdleTimeout.Event>)
    ensures IdleTimeout.RunAsWritten(IdleSettings, IdleTimeout.Mount(IdleSettings), events)
         == IdleTimeout.Run(IdleSettings, IdleTimeout.Mount(IdleSettings), events)
  {
    IdleTimeout.MountedAsWrittenAgrees(IdleSettings, events);
  }

  /** The status dropdown: every status, or one. */
  datatype StatusFilter = AllStatuses | OnlyStatus(status: Status)

  /** The sort dropdown. */
  datatype SortOrder = Newest | Oldest

  /** The status filter's predicate. */
  function HasStatus(status: Status): ServiceOrder -> bool
  {
    (o: ServiceOrder) => o.status == status
  }

  /** The search filter's predicate: the lower-cased term (not trimmed) occurs in
      the lower-cased client name, device or id. */
  function MatchesTerm(lowerTerm: string, lower: string -> string): ServiceOrder -> bool
  {
    (o: ServiceOrder) =>
      Includes(lower(o.clientName), lowerTerm) || Includes(lower(o.device), lowerTerm)
      || Includes(lower(o.id), lowerTerm)
  }

  /** Whether an order belongs in the view: its status passes the status
      filter, and the search term is blank or matches it. */
  predicate Selected(o: ServiceOrder, term: string, filter: StatusFilter, lower: string -> string)
  {
    && (filter.AllStatuses? || o.status == filter.status)
    && (Trim(term) == "" || MatchesTerm(lower(term), lower)(o))
  }

  /** The source's numeric comparator: `dateB - dateA` for newest first,
      `dateA - dateB` for oldest first. */
  function CompareCreatedAt(order: SortOrder, a: ServiceOrder, b: ServiceOrder): int
  {
    if order == Newest then b.createdAt - a.createdAt else a.createdAt - b.createdAt
  }

  /** The sort comparator as "may come first": `a` may precede `b` exactly
      when the source's comparator does not ask to swap them. */
  function ByCreatedAt(order: SortOrder): (le: (ServiceOrder, ServiceOrder) -> bool)
    ensures forall a, b :: le(a, b) <==> CompareCreatedAt(order, a, b) <= 0
  {
    match order
    case Newest => (a: ServiceOrder, b: ServiceOrder) => a.createdAt >= b.createdAt
    case Oldest => (a: ServiceOrder, b: ServiceOrder) => a.createdAt <= b.createdAt
  }

  lemma ByCreatedAtIsPreorder(order: SortOrder)
    ensures TotalPreorder(ByCreatedAt(order))
  {
    var le := ByCreatedAt(order);
    forall a, b ensures le(a, b) || le(b, a) {
    }
    forall a, b, c | le(a, b) && le(b, c) ensures le(a, c) {
    }
  }

  /** The status filter step: skipped for "all". */
  function FilterByStatus(orders: seq<ServiceOrder>, filter: StatusFilter): (r: seq<ServiceOrder>)
    ensures forall o :: multiset(r)[o] ==
              if filter.AllStatuses? || o.status == filter.status then multiset(orders)[o] else 0
  {
    if filter.AllStatuses? then orders
    else
      var r := Filter(orders, HasStatus(filter.status));
      forall o ensures multiset(r)[o] == if o.status == filter.status then multiset(orders)[o] else 0 {
        FilterMultiset(orders, HasStatus(filter.status), o);
      }
      r
  }

  /** The search step: skipped when the term is blank after trimming. */
  function FilterBySearch(orders: seq<ServiceOrder>, term: string, lower: string -> string): (r: seq<ServiceOrder>)
    ensures forall o :: multiset(r)[o] ==
              if Trim(term) == "" || MatchesTerm(lower(term), lower)(o) then multiset(orders)[o] else 0
  {
    if Trim(term) == "" then orders
    else
      var r := Filter(orders, MatchesTerm(lower(term), lower));
      forall o ensures multiset(r)[o] == if MatchesTerm(lower(term), lower)(o) then multiset(orders)[o] else 0 {
        FilterMultiset(orders, MatchesTerm(lower(term), lower), o);
      }
      r
  }

  /** `filteredAndSortedOrders`: status filter, then search, then sort. The
      result holds exactly the selected orders, each as often as in the
      store, in the requested order of creation. */
  function ViewOrders(orders: seq<ServiceOrder>, term: string, filter: StatusFilter,
                      order: SortOrder, lower: string -> string): (r: seq<ServiceOrder>)
    ensures forall o :: multiset(r)[o] == if Selected(o, term, filter, lower) then multiset(orders)[o] else 0
    ensures forall o :: o in r <==> o in orders && Selected(o, term, filter, lower)
    ensures order == Newest ==> forall i, j :: 0 <= i < j < |r| ==> r[i].createdAt >= r[j].createdAt
    ensures order == Oldest ==> forall i, j :: 0 <= i < j < |r| ==> r[i].createdAt <= r[j].createdAt
  {
    var byStatus := FilterByStatus(orders, filter);
    var bySearch := FilterBySearch(byStatus, term, lower);
    var r := Sort(bySearch, ByCreatedAt(order));
    assert forall o :: multiset(r)[o] == multiset(bySearch)[o];
    forall o ensures o in r <==> o in orders && Selected(o, term, filter, lower) {
      assert o in r <==> multiset(r)[o] > 0;
      assert o in orders <==> multiset(orders)[o] > 0;
    }
    ByCreatedAtIsPreorder(order);
    SortSorted(bySearch, ByCreatedAt(order));
    r
  }

  /** With "all" statuses and a blank search the view is the whole store,
      reordered. */
  lemma NoFilterShowsEverything(orders: seq<ServiceOrder>, term: string, order: SortOrder, lower: string -> string)
    requires Trim(term) == ""
    ensures multiset(ViewOrders(orders, term, AllStatuses, order, lower)) == multiset(orders)
  {
    var r := ViewOrders(orders, term, AllStatuses, order, lower);
    assert forall o :: multiset(r)[o] == multiset(orders)[o];
  }

  /** A term made only of whitespace applies no search filter. */
  lemma BlankTermIgnored(orders: seq<ServiceOrder>, term: string, filter: StatusFilter,
                         order: SortOrder, lower: string -> string)
    requires forall i :: 0 <= i < |term| ==> IsWhitespace(term[i])
    ensures ViewOrders(orders, term, filter, order, lower) == ViewOrders(orders, "", filter, order, lower)
  {
    TrimEmptyIffBlank(term);
  }

  /** The status filter and the search filter commute; sorting comes after
      both. */
  lemma FiltersCommute(orders: seq<ServiceOrder>, term: string, filter: StatusFilter, lower: string -> string)
    ensures FilterBySearch(FilterByStatus(orders, filter), term, lower)
         == FilterByStatus(FilterBySearch(orders, term, lower), filter)
  {
    if !filter.AllStatuses? && Trim(term) != "" {
      FilterCommute(orders, HasStatus(filter.status), MatchesTerm(lower(term), lower));
    }
  }

  /** The order form's state on the page: open or closed, and the order
      being edited (none when creating). */
  datatype OrderEditor = OrderEditor(isOpen: bool, editing: Option<ServiceOrder>)

  /** `{ ...editingOrder, ...orderData, id }`: the form's fields over the
      original, which keeps the original's timestamps; an image list the
      form did not supply leaves the original's in place. */
  function MergeEdit(original: ServiceOrder, data: OrderData, id: string): (o: ServiceOrder)
    ensures o.id == id && o.createdAt == original.createdAt && o.updatedAt == original.updatedAt
    ensures o.clientName == data.clientName && o.device == data.device
    ensures o.issueDescription == data.issueDescription && o.status == data.status
    ensures o.images == if data.images.Some? then data.images else original.images
  {
    ServiceOrder(id, data.clientName, data.device, data.issueDescription, data.status,
                 original.createdAt, original.updatedAt,
                 if data.images.Some? then data.images else original.images)
  }

  /** The store and the form after a save. */
  datatype Saved = Saved(orders: seq<ServiceOrder>, editor: OrderEditor)

  /** `handleSaveOrder`: with an id (non-empty) and an order being edited,
      the merged order updates the store; otherwise the data is added as a
      new order. Either way the form closes. `newId` and `now` are the
      generated id and the clock. */
  function SaveOrder(orders: seq<ServiceOrder>, editor: OrderEditor, data: OrderData,
                     id: Option<string>, newId: string, now: Millis): (r: Saved)
    ensures r.editor == OrderEditor(false, None)
    ensures Truthy(id) && editor.editing.Some? ==>
              && |r.orders| == |orders|
              && (forall i :: 0 <= i < |orders| && orders[i].id != id.value ==> r.orders[i] == orders[i])
              && (forall i :: 0 <= i < |orders| && orders[i].id == id.value ==>
                    && r.orders[i].id == id.value
                    && r.orders[i].createdAt == editor.editing.value.createdAt
                    && r.orders[i].updatedAt == now
                    && r.orders[i].clientName == data.clientName
                    && r.orders[i].device == data.device
                    && r.orders[i].issueDescription == data.issueDescription
                    && r.orders[i].status == data.status
                    && r.orders[i].images == (if data.images.Some? then data.images else editor.editing.value.images))
    ensures !(Truthy(id) && editor.editing.Some?) ==>
              && |r.orders| == |orders| + 1 && r.orders[1..] == orders
              && r.orders[0] == NewOrder(data, newId, now)
              && r.orders[0].id == newId && r.orders[0].createdAt == now && r.orders[0].updatedAt == now
  {
    var next :=
      if Truthy(id) && editor.editing.Some? then
        UpdateOrder(orders, MergeEdit(editor.editing.value, data, id.value), now)
      else
        AddOrder(orders, data, newId, now);
    Saved(next, OrderEditor(false, None))
  }

  /** Opening an order for edit and saving the form unchanged rewrites only
      its `updatedAt` (and makes a missing image list an explicit empty
      one). */
  lemma SaveUnchangedEditOnlyStamps(orders: seq<ServiceOrder>, o: ServiceOrder, newId: string, now: Millis)
    requires o.id != ""
    ensures var s := Submit(InitForm(Some(o)), Some(o));
            var expected := o.(images := Some(if o.images.Some? then o.images.value else []));
            SaveOrder(orders, OrderEditor(true, Some(o)), s.data, s.id, newId, now).orders
              == UpdateOrder(orders, expected, now)
  {
  }

  /** `handleDeleteOrder`: the store changes only when the user confirms. */
  function DeleteOrderConfirmed(orders: seq<ServiceOrder>, id: string, confirmed: bool): (r: seq<ServiceOrder>)
    ensures !confirmed ==> r == orders
    ensures confirmed ==> forall o :: o in r <==> o in orders && o.id != id
    ensures confirmed ==> forall o :: multiset(r)[o] == if o.id != id then multiset(orders)[o] else 0
  {
    if confirmed then DeleteOrder(orders, id) else orders
  }
}
