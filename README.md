# paging_compose: a verified model of the paging core

This project models the pagination core of a small Kotlin/Compose library:

- `PagedList<E>` (module `PagedLists`): an immutable list of loaded items plus a
  `hasNext` flag. Its virtual size counts one synthetic loader slot after the last
  item while more pages remain. `get` refuses the loader slot, `subList` is
  unsupported, and `contains`/`indexOf`/`lastIndexOf` look at the loaded items only.
- The request gate of `pagedItemsIndexed` (module `Paging`). Each invocation has one
  `hasRequested` flag, and `checkAndCallLoadMore(skipCheck)` calls `loadMore` with
  the loader index when the flag is clear or when `skipCheck` is set. The `key`
  lambda runs the prefetch trigger `index >= size - (prefetchTriggerCount + 1)` and
  then picks the row key, with the reserved `LoaderKey` for the loader slot. The
  `itemContent` lambda picks loader, no-internet or data content.

The gate is modelled twice. It is a pure state machine over a `Gate` value
(`CheckStep`, `KeyStep`, `Step`, `Run` over a sequence of `Event`s), and the lemmas
about whole sequences of events are stated over that machine. It is also the class
`Paging.PagedItems`, whose methods update `hasRequested` in place, keep a ghost log
`calls` of every `loadMore` argument, and are proved to follow the pure steps. A new
`pagedItemsIndexed` invocation, for example with a new `PagedList`, is a new
`PagedItems` object, which starts from `Fresh`.

Kotlin's `Int` is modelled as `KotlinInt.Int32`. The trigger bound is computed with
32-bit wrap-around (`KotlinInt.Wrap`). `TriggerIsLoaderDistance` proves that, for a
non-negative threshold, the wrap never changes the outcome, and that the rule is the
same as "within `prefetchTriggerCount` rows of the loader index".

External inputs become parameters. `NetworkUtils.isNetAvailable` is the boolean
`netAvailable`. The remembered `refreshCondition` is the mutable cell
`Paging.RefreshCondition`, whose current value is an `Int32` input of `RenderBranch`. The caller's `key` is a total function `(int, E) -> string`. A
`loadMore` call is an entry appended to the `calls` log.

Four behaviours of the code that a reader might not expect; the model follows the code:

- The automatic trigger (PagingComposable.kt:26-27) does not check the network. It
  fires offline too. Network state only chooses the loader row's content
  (PagingComposable.kt:38). `OfflineStillRequests` states this.
- `checkAndCallLoadMore(true)` does not check the network either.
- `isLoaderItem` accepts any position and returns false outside the list. It does
  not fail.
- Retrying from the no-internet content does not change `refreshCondition`; offline, the row stays on the no-internet content (see Findings).

## Model

| member | source | states |
|---|---|---|
| `KotlinInt.Wrap` | PagingComposable.kt:26 | the result is the 32-bit value congruent to the exact result modulo 2^32; values in range are unchanged, and values just above `Int.MAX_VALUE` lose 2^32 |
| `PagedLists.LoaderKeyReserved` | PagedList.kt:6 | the loader key is `Int.MAX_VALUE`, an `Int`, so it differs from every `String` key of a data row |
| `PagedLists.PagedList.Size` | PagedList.kt:8-9 | size is the number of loaded items plus one exactly when `hasNext` holds |
| `PagedLists.PagedList.IsLoaderItem` | PagedList.kt:19-21 | `position` is a loader slot iff `hasNext` and `position` equals the number of loaded items; a loader slot is a valid virtual index |
| `PagedLists.PagedList.IndexOfLoader` | PagedList.kt:23-25 | the result is `-1` iff there is no next page, and otherwise the number of loaded items, the last virtual index |
| `PagedLists.PagedList.HasLoader` | PagedList.kt:27-29 | true iff the loader index is not the `-1` sentinel, iff the loader index is a loader slot |
| `PagedLists.PagedList.Get` | PagedList.kt:31-39 | for a virtual index, `get` fails exactly at the loader index (with the loader-access error) and otherwise returns `actualList[index]`; any index outside the virtual range is out of bounds |
| `PagedLists.PagedList.IsEmpty` | PagedList.kt:45-47 | empty iff there is no next page and no loaded item, so a list with a next page is never empty |
| `PagedLists.PagedList.SubList` | PagedList.kt:65-70 | fails with the unsupported-operation error for every pair of arguments |
| `PagedLists.FirstIndex` | PagedList.kt:41-43 | Kotlin's `indexOf` on a sequence: `-1` iff absent, otherwise a position holding the element with no earlier occurrence |
| `PagedLists.LastIndex` | PagedList.kt:53-55 | Kotlin's `lastIndexOf` on a sequence: `-1` iff absent, otherwise a position holding the element with no later occurrence |
| `PagedLists.Contains` | PagedList.kt:11-13 | true iff some virtual index returns the element from `Get`; the loader slot never matches |
| `PagedLists.IndexOf` | PagedList.kt:41-43 | `-1` iff not contained; otherwise the first virtual index whose `Get` yields the element, never the loader slot |
| `PagedLists.LastIndexOf` | PagedList.kt:53-55 | `-1` iff not contained; otherwise the last virtual index whose `Get` yields the element, never the loader slot |
| `PagedLists.VirtualIndexSpace` | PagedList.kt:8-21 | the virtual indices are exactly the loaded items' indices plus the loader slot, and no index is both |
| `PagedLists.LoaderSlots` | PagedList.kt:19-25 | the set of loader positions holds just the number of loaded items with a next page and empty without; every loader position is `indexOfLoader()` |
| `Paging.TriggerBound` | PagingComposable.kt:26 | `items.size - (prefetchTriggerCount + 1)` in 32-bit arithmetic, with `items.size` itself wrapped; for a non-negative threshold and at most `Int.MAX_VALUE` loaded items it equals the exact difference, even when `items.size` wraps |
| `Paging.ShouldTrigger` | PagingComposable.kt:26 | the automatic trigger fires only while the list has a loader slot |
| `Paging.TriggerIsLoaderDistance` | PagingComposable.kt:24-27 | with a loader slot, a non-negative threshold and at most `Int.MAX_VALUE` loaded items, the trigger fires iff `index >= indexOfLoader() - prefetchTriggerCount`, whatever Kotlin's wrap-around does |
| `Paging.SmallListTriggersAtFirstRow` | PagingComposable.kt:26 | a list with no more loaded items than the threshold triggers at row 0 |
| `Paging.CheckStep` | PagingComposable.kt:15-20 | afterwards `hasRequested` is set; with `skipCheck` one call with the loader index is always appended; without it, a call is appended iff no request was made before, and otherwise nothing changes |
| `Paging.Step` | PagingComposable.kt:26-46 | one event, a key evaluation or a `loadMore` callback from the loader content: a callback always leaves `hasRequested` set; a forced one always appends `indexOfLoader()`, an unforced one appends iff no request was made; no event appends anything else or more than one call |
| `Paging.KeyStep` | PagingComposable.kt:26-28 | a key evaluation sets `hasRequested` iff it was set or the row qualifies; it appends a call iff the row qualifies and no request was made, and then the call is `indexOfLoader()` (see `RunCallCount`, `NoLoaderNoRequests`) |
| `Paging.RunKeepsConsistent` | PagingComposable.kt:13-20 | every sequence of events keeps the invariant "`hasRequested` iff a call was made, and every `loadMore` argument is `indexOfLoader()`" |
| `Paging.RunOnlyAppends` | PagingComposable.kt:13-20 | the call log only grows, and `hasRequested` never goes from true back to false |
| `Paging.RunCallCount` | PagingComposable.kt:15-28 | each `skipCheck = true` call adds exactly one `loadMore`; all other events together add at most one, and none once `hasRequested` is set |
| `Paging.AutomaticAtMostOnce` | PagingComposable.kt:15-28 | from a fresh invocation, without forced retries, `loadMore` is called at most once, and only with the loader index |
| `Paging.RequestedIgnoresAutomatic` | PagingComposable.kt:15-28 | once a request was made, key evaluations and `loadMore(false)` callbacks leave the state unchanged |
| `Paging.NoLoaderNoRequests` | PagingComposable.kt:26-28 | without a loader slot, no sequence of key evaluations changes the state or calls `loadMore` |
| `Paging.WorkedExample` | PagingComposable.kt:24-27 | with 50 items, a next page and threshold 25: size 51, bound 25, row 24 does not trigger, row 25 does, and evaluating rows 24 to 50 calls `loadMore(50)` exactly once |
| `Paging.RebindFiresAgain` | PagingComposable.kt:13-28 | in a fresh invocation, after any number of non-qualifying key evaluations, the first qualifying one calls `loadMore` with the loader index, and it is the only call |
| `Paging.SelectKey` | PagingComposable.kt:29-33 | the loader slot gets `LoaderKey`; any other virtual index gets the caller's key of its element; only indices outside the virtual range fail |
| `Paging.KeysDistinct` | PagingComposable.kt:29-33 | if the caller's keys are distinct across loaded items, all rows have distinct keys and none fails, the loader row included |
| `Paging.RenderBranch` | PagingComposable.kt:35-61 | every virtual index renders. The loader slot shows loader content iff `refreshCondition > 0` or the network is up, and no-internet content otherwise. Every other row shows its own element, as `Get` returns it |
| `Paging.OfflineStillRequests` | PagingComposable.kt:26-38 | offline, the loader row shows no-internet content, yet evaluating its key already called `loadMore` |
| `Paging.Incremented` | PagingComposable.kt:51 | the intended `value++` adds one to a non-negative counter below `Int.MAX_VALUE` |
| `Paging.RetryShowsLoader` | PagingComposable.kt:36-47 | after one intended increment of a counter in `[0, Int.MAX_VALUE)`, the loader row shows loader content whether or not the network is up |
| `Paging.RefreshCondition.constructor` | PagingComposable.kt:36 | the remembered counter starts at 0 |
| `Paging.RefreshCondition.RetryAsWritten` | PagingComposable.kt:51 | performs the two writes of `value = value++` in order (the successor, then the old value) and ends with the value unchanged |
| `Paging.RefreshCondition.Retry` | PagingComposable.kt:51 | the intended handler: the new value is `Incremented` of the old one |
| `Paging.TapRetryAsWrittenOffline` | PagingComposable.kt:36-57 | offline, from a counter at most 0, a retry tap as written leaves the counter unchanged and the loader row on no-internet content; each further tap starts from the same state |
| `Paging.TapRetry` | PagingComposable.kt:36-47 | with the intended handler, a tap raises the counter by one and the loader row then shows loader content, online or not |
| `Paging.PagedItems.constructor` | PagingComposable.kt:13 | a new invocation binds the list and threshold (default 25), with `hasRequested` false and no calls |
| `Paging.PagedItems.CheckAndCallLoadMore` | PagingComposable.kt:15-20 | the new state is `CheckStep` of the old one, the invariant is kept, and the method reports whether `loadMore` was called |
| `Paging.PagedItems.Key` | PagingComposable.kt:23-33 | the new state is `KeyStep` of the old one, the invariant is kept, and the result is `SelectKey` of the row |

## Left out

- Compose UI is not modelled: `InternetErrorContent`, `Loader`'s layout, modifiers, texts, the progress indicator and the toast (PagingComposable.kt:65-133). They only draw things.
- The default `Loader`'s `LaunchedEffect { loadMore(false) }` (PagingComposable.kt:112-114) is the event `LoadMoreCalled(false)`. A custom `loaderContent` may call its callback with either flag, which is `LoadMoreCalled(skipCheck)`. When effects run is decided by Compose and is not modelled.
- Recomposition is not modelled: `remember { mutableStateOf(0) }` is the cell `RefreshCondition`, and its current value is an input of `RenderBranch`.
- Any recomposition that the two writes of `refreshCondition.value = refreshCondition.value++` cause, which re-reads the network signal, is not modelled; `TapRetryAsWrittenOffline` assumes the device is still offline when the row is next rendered.
- Whether the custom or the default loader and no-internet composable is used is not modelled; both give the same `Row`.
- `NetworkUtils.isNetAvailable` is a global platform signal, so it is the parameter `netAvailable`.
- `iterator`, `listIterator` and `containsAll` (PagedList.kt:15-17, 49-63) are thin delegations to Kotlin's collections. `listIterator(index)` ignores `index` and starts at the beginning. Iterator objects are not modelled.
- The data class's `equals`/`hashCode`, Parcelize and `@RawValue`, and the `List<E>` interface itself are not modelled.
- `LazyListScope.items` (the rendering engine) is not modelled. It is the source of `KeyEvaluated` events, one per row key it asks for, in any order.
- What the caller's `loadMore` does, and how it later replaces the list, is not modelled. Each `loadMore` call is one entry in the `calls` log.
- `PagedLists.PagedList.Size`: does not model the 32-bit wrap of `actualList.size + 1` for a list of exactly `Int.MAX_VALUE` items. `Size()` is the exact count; `TriggerBound` wraps it where the trigger reads `items.size`, and `size - 1` in `indexOfLoader()` and `isLoaderItem` wraps back to `actualList.size`, so at that one size only the row count `count = items.size` differs from Kotlin.

## Findings

| source | as written | input that shows it | evidently intended | confidence | as-written member | corrected member |
|---|---|---|---|---|---|---|
| PagingComposable.kt:51 | `refreshCondition.value = refreshCondition.value++` stores `v + 1` and then assigns the old value `v` back, so the value never changes (the same at line 55) | offline, `refreshCondition = 0`, tap retry: the value stays 0 and the loader row keeps showing no-internet content | `refreshCondition.value++`: count the retry, so the next render shows loader content | high (Kotlin postfix semantics); not executed | `Paging.RefreshCondition.RetryAsWritten`, `Paging.TapRetryAsWrittenOffline` | `Paging.RefreshCondition.Retry`, `Paging.TapRetry` |
