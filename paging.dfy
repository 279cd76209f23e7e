/**
  The request gate of `pagedItemsIndexed`: one `hasRequested` flag per invocation,
  the prefetch trigger evaluated with every row key, the reserved loader key, and
  the choice between loader, no-internet and data content for each row.

  The gate is stated twice: as pure steps over a `Gate` value (with the lemmas
  about whole sequences of events), and as the class `PagedItems` whose methods
  update the flag in place and are proved to follow those steps.
 */
module Paging {
  import opened Wrappers
  import opened KotlinInt
  import opened PagedLists

  // ---------------------------------------------------------------------------
  // The prefetch trigger

  /**
    `items.size - (prefetchTriggerCount + 1)`, computed in Kotlin's `Int` arithmetic,
    where `items.size` is itself the wrapped virtual size.
   */
  function TriggerBound<E>(items: PagedList<E>, prefetchTriggerCount: Int32): (r: Int32)
    ensures 0 <= prefetchTriggerCount && |items.actualList| <= MAX ==>
      r == items.Size() - (prefetchTriggerCount + 1)
  {
    Wrap(Wrap(items.Size()) - Wrap(prefetchTriggerCount + 1))
  }

  /** Whether evaluating the key of row `index` fires the automatic trigger. */
  function ShouldTrigger<E>(items: PagedList<E>, prefetchTriggerCount: Int32, index: int): (r: bool)
    ensures r ==> items.HasLoader() && items.IndexOfLoader() == |items.actualList|
  {
    items.HasLoader() && index >= TriggerBound(items, prefetchTriggerCount)
  }

  /**
    While a loader slot exists, the trigger rule is "within `prefetchTriggerCount`
    rows of the loader slot", and Kotlin's wrap-around never changes the outcome
    for a non-negative count (not even for `Int.MAX_VALUE`, where `count + 1` wraps).
   */
  lemma TriggerIsLoaderDistance<E>(items: PagedList<E>, prefetchTriggerCount: Int32, index: int)
    requires items.hasNext && 0 <= prefetchTriggerCount && |items.actualList| <= MAX
    ensures ShouldTrigger(items, prefetchTriggerCount, index)
        <==> index >= items.IndexOfLoader() - prefetchTriggerCount
  {
  }

  /** A list no longer than the threshold triggers at its very first row. */
  lemma SmallListTriggersAtFirstRow<E>(items: PagedList<E>, prefetchTriggerCount: Int32)
    requires items.hasNext && |items.actualList| <= prefetchTriggerCount
    ensures ShouldTrigger(items, prefetchTriggerCount, 0)
  {
    TriggerIsLoaderDistance(items, prefetchTriggerCount, 0);
  }

  // ---------------------------------------------------------------------------
  // The gate as values

  /** The captured `hasRequested` flag and the log of every `loadMore` argument so far. */
  datatype Gate = Gate(hasRequested: bool, calls: seq<int>)

  /** The gate of a new `pagedItemsIndexed` invocation. */
  const Fresh: Gate := Gate(false, [])

  /** `checkAndCallLoadMore(skipCheck)` with the loader index of the bound list. */
  function CheckStep(g: Gate, loaderIndex: int, skipCheck: bool): (g': Gate)
    ensures g'.hasRequested
    ensures skipCheck ==> g'.calls == g.calls + [loaderIndex]
    ensures !skipCheck && g.hasRequested ==> g' == g
    ensures !skipCheck && !g.hasRequested ==> g'.calls == g.calls + [loaderIndex]
  {
    if !g.hasRequested || skipCheck then Gate(true, g.calls + [loaderIndex]) else g
  }

  /** The trigger part of the `key` lambda for row `index`. */
  function KeyStep<E>(g: Gate, items: PagedList<E>, prefetchTriggerCount: Int32, index: int): (g': Gate)
    ensures g'.hasRequested <==> g.hasRequested || ShouldTrigger(items, prefetchTriggerCount, index)
    ensures g'.calls != g.calls <==> !g.hasRequested && ShouldTrigger(items, prefetchTriggerCount, index)
    ensures g'.calls == g.calls || g'.calls == g.calls + [items.IndexOfLoader()]
  {
    if ShouldTrigger(items, prefetchTriggerCount, index) then
      CheckStep(g, items.IndexOfLoader(), false)
    else
      g
  }

  /**
    What reaches the gate: a row key being evaluated, or the loader row calling
    its `loadMore(skipCheck)` callback (the default loader does so with `false`
    when it appears; a custom loader may pass `true` to retry).
   */
  datatype Event = KeyEvaluated(index: int) | LoadMoreCalled(skipCheck: bool)

  function Step<E>(g: Gate, items: PagedList<E>, prefetchTriggerCount: Int32, e: Event): (g': Gate)
    ensures e.LoadMoreCalled? ==> g'.hasRequested
    ensures e == LoadMoreCalled(true) ==> g'.calls == g.calls + [items.IndexOfLoader()]
    ensures e == LoadMoreCalled(false) ==> (g'.calls != g.calls <==> !g.hasRequested)
    ensures g'.calls == g.calls || g'.calls == g.calls + [items.IndexOfLoader()]
  {
    match e
    case KeyEvaluated(index) => KeyStep(g, items, prefetchTriggerCount, index)
    case LoadMoreCalled(skipCheck) => CheckStep(g, items.IndexOfLoader(), skipCheck)
  }

  function Run<E>(g: Gate, items: PagedList<E>, prefetchTriggerCount: Int32, events: seq<Event>): Gate
    decreases |events|
  {
    if events == [] then g
    else Run(Step(g, items, prefetchTriggerCount, events[0]), items, prefetchTriggerCount, events[1..])
  }

  /** How many of `events` are retries that bypass the guard. */
  function ManualCount(events: seq<Event>): nat {
    if events == [] then 0
    else (if events[0] == LoadMoreCalled(true) then 1 else 0) + ManualCount(events[1..])
  }

  /** The key evaluations of rows `lo .. hi`, in order. */
  function KeysFrom(lo: int, hi: int): (events: seq<Event>)
    decreases hi - lo
  {
    if lo >= hi then [] else [KeyEvaluated(lo)] + KeysFrom(lo + 1, hi)
  }

  /** The gate's invariant: the flag is set exactly once a call was made, and each call names the loader. */
  ghost predicate Consistent<E>(g: Gate, items: PagedList<E>) {
    (g.hasRequested <==> g.calls != [])
    && forall i :: 0 <= i < |g.calls| ==> g.calls[i] == items.IndexOfLoader()
  }

  lemma {:induction false} RunConcat<E>(g: Gate, items: PagedList<E>, k: Int32, a: seq<Event>, b: seq<Event>)
    ensures Run(g, items, k, a + b) == Run(Run(g, items, k, a), items, k, b)
    decreases |a|
  {
    if a == [] {
      assert a + b == b;
    } else {
      assert (a + b)[1..] == a[1..] + b;
      RunConcat(Step(g, items, k, a[0]), items, k, a[1..], b);
    }
  }

  /** Every event keeps the invariant; in particular every `loadMore` argument is the loader index. */
  lemma {:induction false} RunKeepsConsistent<E>(g: Gate, items: PagedList<E>, k: Int32, events: seq<Event>)
    requires Consistent(g, items)
    ensures Consistent(Run(g, items, k, events), items)
    decreases |events|
  {
    if events != [] {
      var g' := Step(g, items, k, events[0]);
      assert Consistent(g', items);
      RunKeepsConsistent(g', items, k, events[1..]);
    }
  }

  /** The call log only grows, and `hasRequested` never goes back from true to false. */
  lemma {:induction false} RunOnlyAppends<E>(g: Gate, items: PagedList<E>, k: Int32, events: seq<Event>)
    ensures g.calls <= Run(g, items, k, events).calls
    ensures g.hasRequested ==> Run(g, items, k, events).hasRequested
    decreases |events|
  {
    if events != [] {
      RunOnlyAppends(Step(g, items, k, events[0]), items, k, events[1..]);
    }
  }

  /**
    Each retry adds exactly one call; all automatic requests together add at most
    one, and none once `hasRequested` is set.
   */
  lemma {:induction false} RunCallCount<E>(g: Gate, items: PagedList<E>, k: Int32, events: seq<Event>)
    ensures |g.calls| + ManualCount(events) <= |Run(g, items, k, events).calls|
    ensures |Run(g, items, k, events).calls|
         <= |g.calls| + ManualCount(events) + (if g.hasRequested then 0 else 1)
    decreases |events|
  {
    if events != [] {
      RunCallCount(Step(g, items, k, events[0]), items, k, events[1..]);
    }
  }

  /** Without retries, a fresh gate calls `loadMore` at most once, and with the loader index. */
  lemma AutomaticAtMostOnce<E>(items: PagedList<E>, k: Int32, events: seq<Event>)
    requires ManualCount(events) == 0
    ensures |Run(Fresh, items, k, events).calls| <= 1
    ensures forall i :: 0 <= i < |Run(Fresh, items, k, events).calls| ==>
      Run(Fresh, items, k, events).calls[i] == items.IndexOfLoader()
  {
    RunCallCount(Fresh, items, k, events);
    RunKeepsConsistent(Fresh, items, k, events);
  }

  /** Once a request was made, later key evaluations and non-forced callbacks change nothing. */
  lemma {:induction false} RequestedIgnoresAutomatic<E>(g: Gate, items: PagedList<E>, k: Int32, events: seq<Event>)
    requires g.hasRequested && ManualCount(events) == 0
    ensures Run(g, items, k, events) == g
    decreases |events|
  {
    if events != [] {
      assert Step(g, items, k, events[0]) == g;
      RequestedIgnoresAutomatic(g, items, k, events[1..]);
    }
  }

  /** Without a loader slot, no key evaluation ever calls `loadMore`. */
  lemma {:induction false} NoLoaderNoRequests<E>(g: Gate, items: PagedList<E>, k: Int32, events: seq<Event>)
    requires !items.hasNext
    requires forall i :: 0 <= i < |events| ==> events[i].KeyEvaluated?
    ensures Run(g, items, k, events) == g
    decreases |events|
  {
    if events != [] {
      NoLoaderNoRequests(g, items, k, events[1..]);
    }
  }

  lemma {:induction false} KeysAreAutomatic(lo: int, hi: int)
    ensures ManualCount(KeysFrom(lo, hi)) == 0
    decreases hi - lo
  {
    if lo < hi {
      KeysAreAutomatic(lo + 1, hi);
    }
  }

  /**
    The example of the source's comment: 50 loaded items, a next page and a threshold
    of 25 give 51 rows and the bound 25. Row 24 does not trigger, row 25 does, and
    rows 26 to 50 add no further call.
   */
  lemma WorkedExample<E>(items: PagedList<E>)
    requires |items.actualList| == 50 && items.hasNext
    ensures items.Size() == 51 && TriggerBound(items, 25) == 25
    ensures !ShouldTrigger(items, 25, 24) && ShouldTrigger(items, 25, 25)
    ensures Run(Fresh, items, 25, KeysFrom(24, items.Size())).calls == [50]
  {
    assert Wrap(26) == 26 && Wrap(25) == 25;
    assert TriggerBound(items, 25) == 25;
    var first := [KeyEvaluated(24), KeyEvaluated(25)];
    assert Step(Fresh, items, 25, KeyEvaluated(24)) == Fresh;
    assert Step(Fresh, items, 25, KeyEvaluated(25)) == Gate(true, [50]);
    assert first[1..] == [KeyEvaluated(25)] && first[1..][1..] == [];
    var afterTwo := Run(Fresh, items, 25, first);
    assert afterTwo == Run(Fresh, items, 25, [KeyEvaluated(25)]);
    assert afterTwo == Gate(true, [50]);
    var n := items.Size();
    assert KeysFrom(24, n) == first + KeysFrom(26, n);
    RunConcat(Fresh, items, 25, first, KeysFrom(26, n));
    KeysAreAutomatic(26, n);
    RequestedIgnoresAutomatic(afterTwo, items, 25, KeysFrom(26, n));
  }

  /**
    A new invocation (a new list bound) starts fresh: after any number of key
    evaluations that do not qualify, the first qualifying one requests the next page.
   */
  lemma {:induction false} RebindFiresAgain<E>(items: PagedList<E>, k: Int32, before: seq<Event>, index: int)
    requires forall i :: 0 <= i < |before| ==>
      before[i].KeyEvaluated? && !ShouldTrigger(items, k, before[i].index)
    requires ShouldTrigger(items, k, index)
    ensures Run(Fresh, items, k, before + [KeyEvaluated(index)]) == Gate(true, [|items.actualList|])
    decreases |before|
  {
    var last := [KeyEvaluated(index)];
    if before == [] {
      assert before + last == last && last[1..] == [];
    } else {
      assert Step(Fresh, items, k, before[0]) == Fresh;
      assert (before + last)[1..] == before[1..] + last;
      RebindFiresAgain(items, k, before[1..], index);
    }
  }

  // ---------------------------------------------------------------------------
  // Keys and row content

  /** The key of row `index`: the reserved loader key for the loader slot, the caller's key otherwise. */
  function SelectKey<E>(items: PagedList<E>, index: int, key: (int, E) -> string): (r: Result<ListKey, Error>)
    ensures items.IsLoaderItem(index) ==> r == Success(LoaderKey)
    ensures 0 <= index < items.Size() && !items.IsLoaderItem(index) ==>
      r == Success(StringKey(key(index, items.actualList[index])))
    ensures r.Failure? <==> !(0 <= index < items.Size())
  {
    if items.IsLoaderItem(index) then
      Success(LoaderKey)
    else
      match items.Get(index)
      case Success(item) => Success(StringKey(key(index, item)))
      case Failure(e) => Failure(e)
  }

  /**
    When the caller's keys are distinct across the loaded items, every row of the
    virtual index space has a distinct key, the loader row included.
   */
  lemma KeysDistinct<E>(items: PagedList<E>, key: (int, E) -> string, i: int, j: int)
    requires forall a, b :: 0 <= a < b < |items.actualList| ==>
      key(a, items.actualList[a]) != key(b, items.actualList[b])
    requires 0 <= i < items.Size() && 0 <= j < items.Size() && i != j
    ensures SelectKey(items, i, key).Success? && SelectKey(items, j, key).Success?
    ensures SelectKey(items, i, key) != SelectKey(items, j, key)
  {
  }

  /** What `itemContent` draws for a row. */
  datatype Row<E> = LoaderRow(index: int) | NoInternetRow(index: int) | ItemRow(index: int, item: E)

  /**
    The content branch for row `index`: the loader row shows loader content once a
    retry was counted or the network is available, and the no-internet content
    otherwise; every other row shows its data element.
   */
  function RenderBranch<E>(items: PagedList<E>, index: int, refreshCondition: Int32, netAvailable: bool)
    : (r: Result<Row<E>, Error>)
    ensures 0 <= index < items.Size() ==> r.Success? && r.value.index == index
    ensures items.IsLoaderItem(index) ==>
      (r == Success(LoaderRow(index)) <==> refreshCondition > 0 || netAvailable)
    ensures r.Success? && r.value.ItemRow? ==>
      !items.IsLoaderItem(index) && items.Get(index) == Success(r.value.item)
    ensures r.Success? && !r.value.ItemRow? ==> items.IsLoaderItem(index)
    ensures r.Failure? ==> r == Failure(IndexOutOfBounds(index))
  {
    if items.IsLoaderItem(index) then
      if refreshCondition > 0 || netAvailable then Success(LoaderRow(index)) else Success(NoInternetRow(index))
    else
      match items.Get(index)
      case Success(item) => Success(ItemRow(index, item))
      case Failure(e) => Failure(e)
  }

  /**
    The automatic trigger does not look at the network: offline, the loader row
    shows the no-internet content, yet evaluating its key has already called `loadMore`.
   */
  lemma OfflineStillRequests<E>(items: PagedList<E>, k: Int32)
    requires items.hasNext && 0 <= k && |items.actualList| <= MAX
    ensures RenderBranch(items, items.IndexOfLoader(), 0, false) == Success(NoInternetRow(items.IndexOfLoader()))
    ensures Run(Fresh, items, k, [KeyEvaluated(items.IndexOfLoader())]).calls == [items.IndexOfLoader()]
  {
    TriggerIsLoaderDistance(items, k, items.IndexOfLoader());
    RebindFiresAgain(items, k, [], items.IndexOfLoader());
  }

  /** The pure effect of the evidently intended retry handler, `refreshCondition.value++`. */
  function Incremented(v: Int32): (r: Int32)
    ensures 0 <= v < MAX ==> r == v + 1
  {
    Wrap(v + 1)
  }

  /** With the intended handler, one tap from the initial state shows loader content, online or not. */
  lemma RetryShowsLoader<E>(items: PagedList<E>, v: Int32, netAvailable: bool)
    requires items.hasNext && 0 <= v < MAX
    ensures RenderBranch(items, items.IndexOfLoader(), Incremented(v), netAvailable)
         == Success(LoaderRow(items.IndexOfLoader()))
  {
  }

  // ---------------------------------------------------------------------------
  // The loader row's remembered retry counter

  /** `remember { mutableStateOf(0) }`: the loader row's `refreshCondition` cell. */
  class RefreshCondition {
    var value: Int32

    constructor ()
      ensures value == 0
    {
      value := 0;
    }

    /**
      The retry handler as written, `refreshCondition.value = refreshCondition.value++`:
      the postfix increment reads the value, stores its successor and yields the old
      value, which the assignment then stores back.
     */
    method RetryAsWritten()
      modifies this
      ensures value == old(value)
    {
      var yielded := value;
      value := Wrap(value + 1);
      value := yielded;
    }

    /** The evidently intended retry handler, `refreshCondition.value++`. */
    method Retry()
      modifies this
      ensures value == Incremented(old(value))
    {
      value := Wrap(value + 1);
    }
  }

  /** Offline, a retry tap as written leaves the loader row on the no-internet content. */
  method TapRetryAsWrittenOffline<E>(items: PagedList<E>, cell: RefreshCondition)
    requires items.hasNext && cell.value <= 0
    modifies cell
    ensures cell.value == old(cell.value)
    ensures RenderBranch(items, items.IndexOfLoader(), cell.value, false)
         == Success(NoInternetRow(items.IndexOfLoader()))
  {
    cell.RetryAsWritten();
  }

  /** With the intended handler, a tap on a fresh loader row shows loader content, online or not. */
  method TapRetry<E>(items: PagedList<E>, cell: RefreshCondition, netAvailable: bool)
    requires items.hasNext && 0 <= cell.value < MAX
    modifies cell
    ensures cell.value == old(cell.value) + 1
    ensures RenderBranch(items, items.IndexOfLoader(), cell.value, netAvailable)
         == Success(LoaderRow(items.IndexOfLoader()))
  {
    cell.Retry();
    RetryShowsLoader(items, old(cell.value), netAvailable);
  }

  // ---------------------------------------------------------------------------
  // The gate as state updated in place

  /** One `pagedItemsIndexed` invocation: the bound list, the threshold and the captured flag. */
  class PagedItems<E> {
    const items: PagedList<E>
    const prefetchTriggerCount: Int32
    var hasRequested: bool
    /** The argument of every `loadMore` call made so far. */
    ghost var calls: seq<int>

    ghost function State(): Gate
      reads this
    {
      Gate(hasRequested, calls)
    }

    ghost predicate Valid()
      reads this
    {
      Consistent(State(), items)
    }

    /** `var hasRequested = false` at the start of an invocation. */
    constructor (items: PagedList<E>, prefetchTriggerCount: Int32 := 25)
      ensures Valid() && State() == Fresh
      ensures this.items == items && this.prefetchTriggerCount == prefetchTriggerCount
    {
      this.items := items;
      this.prefetchTriggerCount := prefetchTriggerCount;
      hasRequested := false;
      calls := [];
    }

    method CheckAndCallLoadMore(skipCheck: bool := false) returns (called: bool)
      requires Valid()
      modifies this
      ensures Valid()
      ensures State() == CheckStep(old(State()), items.IndexOfLoader(), skipCheck)
      ensures called <==> !old(hasRequested) || skipCheck
    {
      called := !hasRequested || skipCheck;
      if called {
        hasRequested := true;
        calls := calls + [items.IndexOfLoader()];
      }
    }

    /** The `key` lambda: run the prefetch trigger, then choose the row's key. */
    method Key(index: int, key: (int, E) -> string) returns (r: Result<ListKey, Error>)
      requires Valid()
      modifies this
      ensures Valid()
      ensures State() == KeyStep(old(State()), items, prefetchTriggerCount, index)
      ensures r == SelectKey(items, index, key)
    {
      if ShouldTrigger(items, prefetchTriggerCount, index) {
        var _ := CheckAndCallLoadMore();
      }
      r := SelectKey(items, index, key);
    }
  }
}
