# TecnoReparos core, modelled in Dafny

TecnoReparos is a single-page application for a device repair shop. It keeps
a list of service orders (repair tickets) and a parts stock list in memory and
writes both to the browser's `localStorage` after every change. It has a mock
login, a light/dark theme, and an auto-logout after a period of inactivity.

This project models the parts of it that hold logic. Each part is a Dafny
module named after its source file:

- `ServiceOrders`: the service-order store (`hooks/useServiceOrders.ts`). It
  has seed data, load-or-seed on start, write-through persistence, and add
  (prepend), update (replace by id, stamp `updatedAt`) and delete (filter by
  id).
- `StockItems`: the stock store (`hooks/useStockItems.ts`). It has the same
  shape, except that add sorts the whole list by name.
- `Dashboard`: the order page (`components/DashboardPage.tsx`). This covers
  the displayed list (status filter, case-insensitive search, creation-date
  sort), the save dispatch (update merged over the original, or add), the
  delete confirmation, and the auto-logout timings.
- `OrderModal`: the order form (`components/ServiceOrderModal.tsx`). This
  covers filling the form on open, the 5-image upload cap, removing an image
  by position, and submit.
- `StockPage`: the stock page (`components/StockPage.tsx`). This covers the
  update/add choice on save and the delete confirmation.
- `IdleTimeout`: the auto-logout hook (`hooks/useIdleTimeout.ts`) as a state
  machine. Its events are activity, "stay active", the idle timeout firing, a
  countdown tick, the logout timeout firing, and teardown.
- `App` and `Login`: the shell (`App.tsx`) and the login form
  (`components/LoginPage.tsx`). This covers the initial theme, toggle and
  persistence of the theme, login and logout, the gate in front of the
  dashboard, and the fixed credential check.

Some modules support the others:

- `Types` holds the records of `types.ts`.
- `Seqs` holds `Array.prototype.filter`.
- `Sorting` holds `Array.prototype.sort` with a consistent comparator, as a
  stable insertion sort.
- `Text` holds `String.prototype.trim` and `includes`.
- `Storage` holds `localStorage` as a `map<string, string>`, with the
  load-or-seed and persist pattern the two stores share.

Everything outside the program is a parameter:

- the clock: timestamps are integers, in milliseconds;
- generated ids;
- `localeCompare`: `nameLe`, a total preorder on names where a sorted result
  is claimed;
- `toLowerCase`: `lower`;
- `JSON.stringify` and `JSON.parse`: a `Codec` of two functions;
- `window.confirm`: `confirmed`;
- whether a `window` exists;
- the system colour scheme: `prefersDark`.

Timers do not run. Their firing is an event of the idle state machine.

## Model

| member | source | states |
|---|---|---|
| `Seqs.Filter` | hooks/useServiceOrders.ts:83 | every element kept satisfies the predicate, and the result is no longer than the input |
| `Seqs.FilterMultiset` | hooks/useServiceOrders.ts:83 | a passing element is kept exactly as many times as it occurs; a failing one is dropped |
| `Seqs.FilterMembership` | hooks/useStockItems.ts:57 | an element is in the result iff it is in the input and passes |
| `Seqs.FilterAppend` | hooks/useStockItems.ts:57 | filtering distributes over concatenation, so kept elements keep their relative order |
| `Seqs.FilterKeepsAll` | hooks/useServiceOrders.ts:83 | when every element passes, the result is the input |
| `Seqs.FilterIdempotent` | hooks/useServiceOrders.ts:83 | filtering twice by one predicate equals filtering once |
| `Seqs.FilterCommute` | components/DashboardPage.tsx:86-99 | two filters give the same sequence in either order |
| `Sorting.Insert` | hooks/useStockItems.ts:45 | inserting adds exactly one occurrence of the element, and nothing else changes in the multiset |
| `Sorting.Sort` | hooks/useStockItems.ts:45 | the sort result is a permutation of its input |
| `Sorting.InsertSorted` | hooks/useStockItems.ts:45 | with a total-preorder comparator, inserting into a sorted sequence keeps it sorted |
| `Sorting.SortSorted` | components/DashboardPage.tsx:102-106 | with a total-preorder comparator, every element may precede every later one |
| `Sorting.SortOfSorted` | hooks/useStockItems.ts:45 | sorting an already sorted sequence returns it unchanged, ties included (stability) |
| `Text.TrimStart` | components/DashboardPage.tsx:92 | the result is a suffix of the input; only whitespace was removed; it does not start with whitespace |
| `Text.TrimEnd` | components/DashboardPage.tsx:92 | the result is a prefix of the input; only whitespace was removed; it does not end with whitespace |
| `Text.TrimEmptyIffBlank` | components/DashboardPage.tsx:92 | a term trims to "" iff every character is whitespace |
| `Text.Trim` | components/DashboardPage.tsx:92 | `trim()` gives a contiguous piece of the term that neither starts nor ends with whitespace, and it is empty iff the term is all whitespace |
| `Text.Includes` | components/DashboardPage.tsx:95-97 | true iff the needle occurs at some offset of the haystack; the empty needle always does |
| `Storage.GetItem` | hooks/useServiceOrders.ts:39 | `getItem` answers null exactly for a key never written, and otherwise the stored string |
| `Storage.LoadOrSeed` | hooks/useServiceOrders.ts:37-49 | a non-empty stored value that decodes is used and the store is untouched; otherwise the seed is used and its encoding is written under the key; other keys are unchanged |
| `Storage.Persist` | hooks/useServiceOrders.ts:55-61 | a successful write puts the encoded collection under the key; a failed write leaves the store as it was; other keys are unchanged |
| `Storage.PersistThenLoad` | hooks/useServiceOrders.ts:37-61 | with a codec that round-trips, a persisted collection is what the next start loads |
| `Storage.LoadTwice` | hooks/useServiceOrders.ts:37-49 | a second start after seeding reads back the same collection and leaves the store alone |
| `Storage.KeysDistinct` | hooks/useStockItems.ts:12 | the orders, stock and theme keys are pairwise different, so writes never clobber each other |
| `ServiceOrders.GetInitialState` | hooks/useServiceOrders.ts:37-49 | on start the state is the stored orders when they are non-empty and parse; otherwise it is the 3-order seed, which is written to the store |
| `ServiceOrders.SeedOrdersWellFormed` | hooks/useServiceOrders.ts:5-33 | the seed holds three orders with distinct ids; each was updated no earlier than it was created; none has images |
| `ServiceOrders.PersistOrders` | hooks/useServiceOrders.ts:55-61 | the effect writes the whole list under the orders key and touches no other key |
| `ServiceOrders.OrdersSurviveRestart` | hooks/useServiceOrders.ts:37-61 | a persisted list is what the next start loads |
| `ServiceOrders.NewOrder` | hooks/useServiceOrders.ts:65-70 | the new record carries the form data unchanged, the given id, and `createdAt = updatedAt = now` |
| `ServiceOrders.AddOrder` | hooks/useServiceOrders.ts:64-72 | the result is one longer; its head is the new order with equal timestamps; its tail is exactly the previous list |
| `ServiceOrders.AddOrderAsWritten` | hooks/useServiceOrders.ts:64-72 | as written, `createdAt` and `updatedAt` are two separate clock readings; the tail is still the previous list |
| `ServiceOrders.AddOrderTimestampsCanDiffer` | hooks/useServiceOrders.ts:68-69 | if the clock ticks between the two readings, the new order's timestamps differ |
| `ServiceOrders.AddOrderAsWrittenAgrees` | hooks/useServiceOrders.ts:68-69 | with one clock reading, the as-written add equals the corrected add |
| `ServiceOrders.UpdateOrder` | hooks/useServiceOrders.ts:74-80 | length and the id at every position are kept; a non-matching entry is unchanged; a matching one becomes the argument with only `updatedAt` replaced by now, and its `createdAt` comes from the argument |
| `ServiceOrders.UpdateAbsentIsNoOp` | hooks/useServiceOrders.ts:76-78 | updating an id not in the list leaves the list unchanged |
| `ServiceOrders.UpdateIdempotent` | hooks/useServiceOrders.ts:74-80 | repeating an update at the same time changes nothing further |
| `ServiceOrders.UpdateThenFind` | hooks/useServiceOrders.ts:74-80 | after updating a present id, reading that id gives the updated order stamped with now |
| `ServiceOrders.DeleteOrder` | hooks/useServiceOrders.ts:82-84 | no entry with the id remains; every order with another id is kept exactly as many times as it occurred; an order is in the result iff it was in the list with another id |
| `ServiceOrders.DeleteOrderAppend` | hooks/useServiceOrders.ts:83 | deleting from a concatenation deletes from each part, so the kept orders keep their original relative order |
| `ServiceOrders.DeleteAbsentIsNoOp` | hooks/useServiceOrders.ts:82-84 | deleting an absent id changes nothing |
| `ServiceOrders.DeleteIdempotent` | hooks/useServiceOrders.ts:82-84 | deleting twice equals deleting once |
| `ServiceOrders.DeletePresentRemovesOne` | hooks/useServiceOrders.ts:82-84 | with unique ids, deleting a present id shortens the list by exactly one |
| `ServiceOrders.DeleteUndoesAdd` | hooks/useServiceOrders.ts:64-84 | deleting a just-added order whose id is fresh restores the previous list exactly |
| `ServiceOrders.AddKeepsIdsUnique` | hooks/useServiceOrders.ts:64-72 | adding with a fresh id keeps ids unique |
| `ServiceOrders.UpdateKeepsIdsUnique` | hooks/useServiceOrders.ts:74-80 | updating keeps ids unique |
| `ServiceOrders.DeleteKeepsIdsUnique` | hooks/useServiceOrders.ts:82-84 | deleting keeps ids unique |
| `StockItems.GetInitialStockState` | hooks/useStockItems.ts:14-25 | on start the state is the stored items when they are non-empty and parse; otherwise it is the 4-item seed, which is written to the store |
| `StockItems.SeedItemsWellFormed` | hooks/useStockItems.ts:5-10 | the seed holds four items with distinct ids and non-negative quantities and prices |
| `StockItems.PersistStock` | hooks/useStockItems.ts:31-37 | the effect writes the whole list under the stock key and touches no other key |
| `StockItems.ByNameIsPreorder` | hooks/useStockItems.ts:45 | comparing items by name under a total preorder on names is itself a total preorder |
| `StockItems.ByName` | hooks/useStockItems.ts:45 | no contract; the body is the model: `a` may precede `b` iff `nameLe(a.name, b.name)`, which stands for `a.name.localeCompare(b.name) <= 0` |
| `StockItems.NewItem` | hooks/useStockItems.ts:41-44 | the new item carries the given name, sku, quantity and price unchanged, plus the generated id |
| `StockItems.AddItem` | hooks/useStockItems.ts:40-46 | the result has N+1 entries, is a permutation of the new item plus the previous list, contains the new item, and is sorted by name |
| `StockItems.SeedNotSortedByName` | hooks/useStockItems.ts:5-10 | the seed is not name-sorted under any collation that puts "Bateria ..." strictly before "Tela ...", so sortedness holds only right after an add |
| `StockItems.UpdateItem` | hooks/useStockItems.ts:48-54 | length and the id at every position are kept, with no re-sort; a matching entry becomes exactly the argument; the others are unchanged |
| `StockItems.UpdateItemAbsentIsNoOp` | hooks/useStockItems.ts:48-54 | updating an absent id changes nothing |
| `StockItems.UpdateWithSameItemIsNoOp` | hooks/useStockItems.ts:48-54 | with unique ids, writing an entry back unchanged leaves the list unchanged |
| `StockItems.DeleteItem` | hooks/useStockItems.ts:56-58 | no entry with the id remains; every item with another id is kept exactly as many times as it occurred; an item is in the result iff it was in the list with another id |
| `StockItems.DeleteItemAppend` | hooks/useStockItems.ts:57 | deleting from a concatenation deletes from each part, so the kept items keep their original relative order |
| `StockItems.DeleteItemAbsentIsNoOp` | hooks/useStockItems.ts:56-58 | deleting an absent id changes nothing |
| `StockItems.DeleteInserted` | hooks/useStockItems.ts:45-57 | removing an inserted item with a fresh id gives back the sequence it went into |
| `StockItems.DeleteUndoesAddOnSorted` | hooks/useStockItems.ts:40-58 | on a name-sorted list, deleting a just-added item with a fresh id restores the list exactly |
| `StockItems.DeleteUndoesAddUpToOrder` | hooks/useStockItems.ts:40-58 | on any list, deleting a just-added item with a fresh id restores the same items, possibly reordered by name |
| `StockItems.AddItemKeepsIdsUnique` | hooks/useStockItems.ts:40-46 | adding with a fresh id keeps ids unique, despite the re-sort |
| `StockItems.PermutationKeepsIdsUnique` | hooks/useStockItems.ts:45 | reordering a list with unique ids keeps them unique |
| `OrderModal.InitForm` | components/ServiceOrderModal.tsx:28-42 | opening for edit fills every field from the order, and missing images become the empty list; opening for create gives empty strings, status pending and no images |
| `OrderModal.UploadImages` | components/ServiceOrderModal.tsx:44-67 | with no file list nothing happens; the alert is shown iff the current plus selected count exceeds 5, and then the images are unchanged; otherwise the new images follow the old ones; a list of at most 5 stays at most 5 |
| `OrderModal.KeepOtherPositions` | components/ServiceOrderModal.tsx:70 | filtering out one position, counted from an offset, equals cutting that position out of the list |
| `OrderModal.RemoveImage` | components/ServiceOrderModal.tsx:69-71 | exactly position i is removed and the others keep their order; an out-of-range i leaves the list unchanged |
| `OrderModal.RemoveKeepsCap` | components/ServiceOrderModal.tsx:69-71 | removing never takes a list past the 5-image cap |
| `OrderModal.ApplyImageActions` | components/ServiceOrderModal.tsx:44-71 | any series of uploads and removals keeps a list of at most 5 images at most 5 |
| `OrderModal.Submit` | components/ServiceOrderModal.tsx:74-84 | submit passes the current field values, with images always present, and passes the edited order's id, or none when creating |
| `OrderModal.SubmitUnchangedEdit` | components/ServiceOrderModal.tsx:28-84 | opening an order and submitting without changes hands back its own fields and id |
| `IdleTimeout.PromptSeconds` | hooks/useIdleTimeout.ts:35 | the countdown starts at `promptTimeout / 1000` seconds, which is never negative |
| `IdleTimeout.ClearTimers` | hooks/useIdleTimeout.ts:21-25 | every pending timer is cancelled, and nothing else changes |
| `IdleTimeout.Initial` | hooks/useIdleTimeout.ts:14-19 | before the effect runs the prompt is hidden, the countdown holds `promptTimeout / 1000`, and no timer is pending |
| `IdleTimeout.Reset` | hooks/useIdleTimeout.ts:44-48 | the prompt is hidden, the prompt and countdown timers are cancelled, and exactly one idle timer of `idleTimeout` is armed |
| `IdleTimeout.ShowPrompt` | hooks/useIdleTimeout.ts:33-42 | the prompt shows with `remaining = promptTimeout/1000`, a 1000 ms countdown and a single logout timer of `promptTimeout` are armed, and no idle timer is pending |
| `IdleTimeout.HandleIdle` | hooks/useIdleTimeout.ts:27-31 | after `onIdle`, the prompt is hidden and every timer is cleared |
| `IdleTimeout.CountDownAsWritten` | hooks/useIdleTimeout.ts:38 | as written, a positive value drops by one, possibly below zero, and a non-positive one becomes 0 |
| `IdleTimeout.CountDownAsWrittenGoesNegative` | hooks/useIdleTimeout.ts:35-38 | with `promptTimeout` 1500, two applications of the source's tick give a negative value; the second tick runs only if a delayed logout timer lets it (see the second finding) |
| `IdleTimeout.CountDown` | hooks/useIdleTimeout.ts:38 | a tick decrements by one, floored at 0, so the countdown is never negative |
| `IdleTimeout.CountDownAgreesOnWholeSeconds` | hooks/useIdleTimeout.ts:38 | on whole non-negative seconds, the as-written tick and the floored tick agree |
| `IdleTimeout.Mount` | hooks/useIdleTimeout.ts:51-59 | mounting attaches the listeners and performs the initial reset, giving the Active state with one idle timer |
| `IdleTimeout.Next` | hooks/useIdleTimeout.ts:21-67 | `onIdle` fires in a step iff the logout timer was pending and fires; activity or stay-active while mounted is `reset`; only teardown unmounts |
| `IdleTimeout.MountSatisfiesInv` | hooks/useIdleTimeout.ts:51-59 | the mounted start state satisfies the hook's invariant |
| `IdleTimeout.NextKeepsInv` | hooks/useIdleTimeout.ts:21-67 | every event keeps the invariant: countdown never negative; no timer once unmounted; logout and countdown timers armed together, only with the prompt showing, never beside the idle timer; mounted states are Active, Warning or idle-fired |
| `IdleTimeout.RunKeepsInv` | hooks/useIdleTimeout.ts:21-67 | the invariant holds after any run of events from a state that satisfies it |
| `IdleTimeout.CountIdleElapsed` | hooks/useIdleTimeout.ts:47 | the number of idle timeouts in a run is the number of times `IdleElapsed` occurs in it |
| `IdleTimeout.FiresAtMostOncePerWarning` | hooks/useIdleTimeout.ts:33-42 | over any event run, `onIdle` fires at most once for a warning already showing plus once per idle timeout |
| `IdleTimeout.StayActiveCancelsLogout` | hooks/useIdleTimeout.ts:44-67 | activity or stay-active during Warning returns to Active without firing; with no later idle timeout, `onIdle` never fires |
| `IdleTimeout.QuietAfterTeardown` | hooks/useIdleTimeout.ts:61-64 | an unmounted hook with nothing pending ignores every event and never fires |
| `IdleTimeout.TeardownSilences` | hooks/useIdleTimeout.ts:61-64 | teardown unmounts and clears every timer, and afterwards no event fires `onIdle` or changes the state |
| `IdleTimeout.IdleCycle` | hooks/useIdleTimeout.ts:27-59 | with no activity, the idle timeout brings Warning with the full countdown; the logout timeout then fires `onIdle` exactly once, hides the prompt and leaves nothing pending |
| `IdleTimeout.CountdownAfterTicks` | hooks/useIdleTimeout.ts:37-39 | k ticks of a running countdown from r leave max(r - k, 0) and fire nothing |
| `IdleTimeout.PromptSecondsWhole` | hooks/useIdleTimeout.ts:35 | a prompt lasting a multiple of 1000 ms starts the countdown on a whole, non-negative number of seconds |
| `IdleTimeout.NextAsWritten` | hooks/useIdleTimeout.ts:21-67 | the source's step: the same as `Next` for every event, except that a running tick applies `prev > 0 ? prev - 1 : 0` |
| `IdleTimeout.CountDownKeepsWholeSeconds` | hooks/useIdleTimeout.ts:38 | a tick takes a whole, non-negative number of seconds to another one |
| `IdleTimeout.NextKeepsWholeSeconds` | hooks/useIdleTimeout.ts:33-39 | with a whole-second prompt, from a whole-second countdown every event leads to a whole-second countdown, and the source's step equals the modelled step |
| `IdleTimeout.AsWrittenAgreesOnWholeSeconds` | hooks/useIdleTimeout.ts:21-67 | with a whole-second prompt, the source's run of any event sequence from a whole-second state is the modelled run: same final state, same number of `onIdle` calls |
| `IdleTimeout.MountedAsWrittenAgrees` | hooks/useIdleTimeout.ts:51-67 | with a whole-second prompt, every run from mounting is the same in the source and in the model |
| `IdleTimeout.AsWrittenRunGoesNegative` | hooks/useIdleTimeout.ts:33-39 | with a 1500 ms prompt, the source's run of mount, idle timeout and two ticks shows a negative countdown; the second tick comes before the logout only when the 1500 ms timer is delayed past the 2000 ms tick |
| `IdleTimeout.TicksFromAbove` | hooks/useIdleTimeout.ts:38 | while at least one second remains per tick, k source ticks take off exactly k seconds |
| `IdleTimeout.DueOrderTicksStayNonNegative` | hooks/useIdleTimeout.ts:35-41 | the at most `promptTimeout / 1000` (rounded down) ticks due before the logout timer leave the source's countdown at `promptTimeout / 1000` less the ticks, which is never negative |
| `Dashboard.IdleSettingsCountWholeSeconds` | components/DashboardPage.tsx:41-45 | the page's 15-minute idle and 30-second prompt start the countdown at 30 whole seconds |
| `Dashboard.PageHookRunsAsWritten` | components/DashboardPage.tsx:41-45 | with the page's settings, every run of the hook as written equals the modelled run, so the invariant and the countdown results hold for the page as written |
| `Dashboard.PageCountdownNeverNegative` | components/DashboardPage.tsx:41-45 | with the page's settings, the countdown of the hook as written is never negative after any run of events |
| `Dashboard.ByCreatedAtIsPreorder` | components/DashboardPage.tsx:102-106 | the newest-first and oldest-first comparators are total preorders |
| `Dashboard.ByCreatedAt` | components/DashboardPage.tsx:102-106 | `a` may precede `b` exactly when the source's comparator (`dateB - dateA` for newest, `dateA - dateB` for oldest) is not positive |
| `Dashboard.FilterByStatus` | components/DashboardPage.tsx:86-89 | every order keeps its number of occurrences if the filter is 'all' or its status is the chosen one, and is dropped otherwise |
| `Dashboard.FilterBySearch` | components/DashboardPage.tsx:91-99 | with a blank term every order is kept; otherwise exactly the orders whose lowercased client name, device or id contain the lowercased term are kept, each as often as before |
| `Dashboard.ViewOrders` | components/DashboardPage.tsx:83-109 | the view holds exactly the orders passing the status filter (none for 'all') and the search (none for a blank term; otherwise the untrimmed lowercased term occurs in the lowercased client name, device or id), each as often as in the store, and is non-increasing (newest) or non-decreasing (oldest) in `createdAt` |
| `Dashboard.NoFilterShowsEverything` | components/DashboardPage.tsx:87-92 | with 'all' and a blank term, the view is a permutation of the whole store |
| `Dashboard.BlankTermIgnored` | components/DashboardPage.tsx:92 | a whitespace-only term gives the same view as an empty one |
| `Dashboard.FiltersCommute` | components/DashboardPage.tsx:86-99 | the status and search filters give the same sequence in either order |
| `Dashboard.MergeEdit` | components/DashboardPage.tsx:65-69 | the merged order has the form's fields and the given id, and keeps the original's `createdAt` and `updatedAt`; images come from the form when it supplies them |
| `Dashboard.SaveOrder` | components/DashboardPage.tsx:63-75 | with a non-empty id and an edited order, every matching entry gets the given id, the form's client name, device, description and status, the form's images when supplied or else the original's, the original `createdAt` and `updatedAt = now`, and the others are unchanged; otherwise the new order built from the form data with the generated id and equal timestamps is prepended to the unchanged list; the form closes either way |
| `Dashboard.SaveUnchangedEditOnlyStamps` | components/DashboardPage.tsx:63-75 | saving an opened order without changes only re-stamps `updatedAt`, and a missing image list becomes empty |
| `Dashboard.DeleteOrderConfirmed` | components/DashboardPage.tsx:77-81 | the list changes only when confirmed, and then exactly the orders with that id are gone, every other order keeping its number of occurrences |
| `StockPage.SaveItemCall` | components/StockPage.tsx:33-38 | exactly one call is made: update with the form data plus the id iff the id is present and non-empty, otherwise add with the form data |
| `StockPage.SaveItem` | components/StockPage.tsx:33-40 | an update replaces exactly the entries with that id in place; an add yields a name-sorted permutation of the list plus the new item; the form closes |
| `StockPage.EmptyIdAdds` | components/StockPage.tsx:34 | an empty-string id counts as absent and leads to an add |
| `StockPage.DeleteItemConfirmed` | components/StockPage.tsx:42-46 | items are deleted only when the user confirms, and then exactly the items with that id are gone, every other item keeping its number of occurrences |
| `Login.SubmitLogin` | components/LoginPage.tsx:13-22 | `onLogin` receives the username iff the pair is exactly ('tecnico', '123'), and the error is then cleared; otherwise the fixed message is set and `onLogin` is not called |
| `Login.ErrorShownIffRejected` | components/LoginPage.tsx:16-21 | an error is shown iff the login was rejected |
| `Login.NoNormalisation` | components/LoginPage.tsx:16 | a trailing space or a capital letter in the username is rejected |
| `App.ThemeName` | App.tsx:35 | the stored theme string is "light" or "dark" |
| `App.GetInitialTheme` | App.tsx:8-19 | with no window the theme is light; a stored "light" or "dark" is used verbatim; anything else follows the system preference |
| `App.Toggle` | App.tsx:39-41 | toggling always changes the theme |
| `App.ToggleTwice` | App.tsx:39-41 | toggling twice is the identity |
| `App.PersistTheme` | App.tsx:28-36 | every theme value is written under 'theme', and other keys are untouched |
| `App.ThemeSurvivesRestart` | App.tsx:11-35 | a persisted theme is the one the next start picks, whatever the system preference |
| `App.Start` | App.tsx:22-24 | the app starts signed out |
| `App.LogIn` | App.tsx:44-46 | login sets the user to the given username and keeps the theme |
| `App.LogOut` | App.tsx:48-50 | logout clears the user and keeps the theme |
| `App.Render` | App.tsx:52-57 | the dashboard is shown iff the user is non-null and non-empty, and then for that user and theme |
| `App.SubmitToApp` | App.tsx:44-46 | a login form submit passed through `handleLogin`: with the accepted pair the user becomes the username, otherwise the state is unchanged; the theme is kept either way |
| `App.DashboardOnlyWithValidCredentials` | App.tsx:44-57 | signed out, a submit reaches the dashboard iff the credentials are the accepted pair, and then as 'tecnico' |
| `App.LogOutShowsLogin` | App.tsx:48-57 | logging out, by hand or on idle, always brings back the login page |

## Findings

| source | as written | input that shows it | evidently intended | confidence | as-written member | corrected member |
|---|---|---|---|---|---|---|
| hooks/useServiceOrders.ts:68-69 | `createdAt` and `updatedAt` come from two separate `new Date()` readings | the clock reads 1698314400000 for `createdAt` and then 1698314400001 for `updatedAt` | one reading for both, so that `createdAt = updatedAt` when an order is created | low: needs a millisecond boundary between two adjacent calls; not executed | `ServiceOrders.AddOrderAsWritten`, `ServiceOrders.AddOrderTimestampsCanDiffer` | `ServiceOrders.AddOrder` |
| hooks/useIdleTimeout.ts:35-38 | the countdown starts at `promptTimeout / 1000` and ticks `prev > 0 ? prev - 1 : 0` | `promptTimeout` = 1500 shows 1.5, then 0.5, then -0.5, but only if the user agent delays the 1500 ms logout timer past the 2000 ms tick; with timers firing when due the logout clears the interval after one tick and the display stops at 0.5 (`IdleTimeout.DueOrderTicksStayNonNegative`) | the countdown never goes below zero | low: needs a delayed or reordered timer; the page's 30000 ms prompt is a whole number of seconds and is unaffected in any order (`Dashboard.PageCountdownNeverNegative`); not executed | `IdleTimeout.CountDownAsWritten`, `IdleTimeout.CountDownAsWrittenGoesNegative`, `IdleTimeout.NextAsWritten`, `IdleTimeout.AsWrittenRunGoesNegative` | `IdleTimeout.CountDown` |

The rest of the model uses the corrected members. `AddOrder` takes a single
`now`. The idle state machine `Next` ticks with `CountDown`, and its
invariant `remaining >= 0` rests on that tick. The source's machine is
`NextAsWritten`. It differs from `Next` only in the tick.
`AsWrittenAgreesOnWholeSeconds` shows that the two run identically whenever
the prompt lasts a whole number of seconds. So for the page's 30-second
prompt, the invariant and `CountdownAfterTicks` also hold for the code as
written (`Dashboard.PageCountdownNeverNegative`). For other prompts the event
model lets ticks and the logout arrive in any order. When they arrive in the
order they fall due, `DueOrderTicksStayNonNegative` shows that the source's
countdown stays non-negative as well.

## Where the code differs from its documented design

The model follows the code in each of these cases:

- The idle hook does not stop after `onIdle`. Its listeners stay attached, so
  activity re-arms the idle timer until the page unmounts. `App` unmounts the
  page on logout (`App.LogOutShowsLogin`).
- The countdown is not rounded to whole seconds. See the second finding.
- `updateOrder` does not look up the stored `createdAt`. It keeps the one in
  its argument. The page passes the original order's `createdAt`
  (`Dashboard.MergeEdit`).
- `updateOrder` stamps `updatedAt` with the clock as read. Nothing forces
  that value to be later than the previous one.
- A truthy id must be present and non-empty. An order or item with the id ""
  is therefore saved as a new record.

## Left out

- Rendering: the presentation components, icons, CSS classes and the DOM
  `dark` class. They only display props.
- The JSON text format. Serialisation is the `Codec` parameter. The codec
  decodes straight to a typed list, so a stored value that parses to a
  non-array is out of scope.
- A `getItem` that throws inside the two stores. It is not a separate input;
  the stores catch it, so it behaves like an unreadable value, which the
  decode-failure path covers. A `setItem` that
  throws inside `getInitialState` is outside the `try` in the source, so that
  exception would propagate; this is not modelled.
- `FileReader` and `readAsDataURL`. Files arrive already encoded as strings,
  and an accepted upload appends them in one step. Two uploads that overlap
  before the first finishes could pass the 5-image cap in the source; the
  model has no concurrency.
- The in-place sort. `result.sort` at components/DashboardPage.tsx:102 sorts
  the store's own array when no filter is active. The model returns a fresh
  sorted sequence.
- Real timer scheduling. `setTimeout` and `setInterval` become events, and
  each pending timer records its delay. Elapsed time is not modelled, so the
  idle machine admits any order of ticks and logout.
  `DueOrderTicksStayNonNegative` covers the due order separately.
- IEEE doubles. `remainingTime` and `price` are exact reals.
- The stock form's `parseInt`/`parseFloat`. These are in
  components/StockModal.tsx; their exact semantics belong to the JavaScript
  runtime.
- Calls to `stayActive` after unmount. The prompt that calls it is not
  rendered once the page has unmounted, so the model ignores such calls.
- The open and close handlers and the current-view switch. These handlers
  only set the open flag and the edited record. The model's save operations
  close the form.
- `Dashboard.ViewOrders`: the contract does not say which of two orders with
  equal `createdAt` comes first. The model's sort is stable, as
  `SortOfSorted` shows.
- `StockItems.AddItem`: it requires `localeCompare` to be a total preorder on
  names. An inconsistent comparator gives an implementation-defined order in
  JavaScript.
- Fresh ids. The source generates ids from the clock and a random number and
  never checks them. Freshness is assumed only by the lemmas about unique
  ids.
- ISO 8601 timestamp strings. `createdAt` and `updatedAt` are stored as ISO
  strings and compared through `new Date(...).getTime()`. The model keeps
  that number, in milliseconds since the epoch. The seed orders' dates are
  written as those numbers.
- `ServiceOrders.UpdateOrder`: it stamps every matching entry with one `now`.
  The source calls `new Date()` inside the `map` callback, once per matching
  entry. With duplicate ids and a clock tick during the map, the source's
  stamps can differ, while the model's are equal. With unique ids at most one
  entry matches, and the two agree.
- `OrderModal.UploadImages`: the accepted files are appended in file order,
  and always. The source pushes each image when its `FileReader` finishes, so
  the order is the order the reads complete. It has no `onerror` handler, so
  if any read fails the count never reaches `files.length` and nothing is
  appended. Read order and read failures are not modelled.
- `App.GetInitialTheme` / `App.PersistTheme`: the theme code calls
  `localStorage.getItem('theme')` and `localStorage.setItem('theme', theme)`
  outside any `try` (App.tsx:11, App.tsx:35). A `SecurityError`, or a
  `QuotaExceededError` once stored images fill the quota, propagates
  uncaught out of the state initialiser or the layout effect. The model's
  reads always answer and its theme writes always succeed. Those throws are
  not modelled.
