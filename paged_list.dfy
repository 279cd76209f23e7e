/**
  The paged list: the items loaded so far plus, while more pages remain, one
  synthetic "loader" slot after the last item. Its virtual index space is
  `0 .. Size()`, and the loader slot, when present, is its last index.
 */
module PagedLists {
  import opened Wrappers
  import opened KotlinInt

  /** What a row key can be: `Int` (the reserved loader key) or `String` (a data row's key). */
  datatype ListKey = IntKey(n: int) | StringKey(s: string)

  /** `PagedList.LoaderKey`, `Int.MAX_VALUE`: the key of the loader row. */
  const LoaderKey: ListKey := IntKey(MAX)

  /** The loader key is `Int.MAX_VALUE` and differs from every `String` key a caller can give. */
  lemma LoaderKeyReserved(s: string)
    ensures LoaderKey == IntKey(0x7fff_ffff)
    ensures LoaderKey != StringKey(s)
  {
  }

  /** The exceptions the list's operations throw. */
  datatype Error =
    | LoaderItemAccess(index: int)   // `get` at the loader slot (IllegalStateException)
    | IndexOutOfBounds(index: int)   // `actualList[index]` outside the loaded items
    | SubListUnsupported             // `subList`, whatever its arguments (IllegalStateException)

  datatype PagedList<E> = PagedList(actualList: seq<E>, hasNext: bool) {

    /** The virtual size: every loaded item, and one more slot while `hasNext` holds. */
    function Size(): (r: nat)
      ensures r == |actualList| || r == |actualList| + 1
      ensures r == |actualList| + 1 <==> hasNext
    {
      if hasNext then |actualList| + 1 else |actualList|
    }

    /** Whether `position` is the loader slot. */
    function IsLoaderItem(position: int): (r: bool)
      ensures r <==> hasNext && position == |actualList|
      ensures r ==> 0 <= position < Size()
    {
      hasNext && position == Size() - 1
    }

    /** The index of the loader slot, or `-1` when there is none. */
    function IndexOfLoader(): (r: int)
      ensures r == -1 <==> !hasNext
      ensures r != -1 ==> r == |actualList| == Size() - 1
    {
      if hasNext then Size() - 1 else -1
    }

    function HasLoader(): (r: bool)
      ensures r <==> IndexOfLoader() != -1
      ensures r <==> IsLoaderItem(IndexOfLoader())
    {
      hasNext
    }

    /**
      The data element at a virtual index. The loader slot is not a data element
      and refuses access; any other index outside the loaded items is out of bounds.
     */
    function Get(index: int): (r: Result<E, Error>)
      ensures 0 <= index < Size() ==> (r.Failure? <==> index == IndexOfLoader())
      ensures 0 <= index < Size() && index != IndexOfLoader() ==> r == Success(actualList[index])
      ensures IsLoaderItem(index) ==> r == Failure(LoaderItemAccess(index))
      ensures !(0 <= index < Size()) ==> r == Failure(IndexOutOfBounds(index))
    {
      if hasNext && index == Size() - 1 then
        Failure(LoaderItemAccess(index))
      else if 0 <= index < |actualList| then
        Success(actualList[index])
      else
        Failure(IndexOutOfBounds(index))
    }

    /** Empty means a virtual size of zero, so a list that still has a next page is never empty. */
    function IsEmpty(): (r: bool)
      ensures r <==> !hasNext && actualList == []
    {
      Size() == 0
    }

    /** A sub-range view is deliberately unsupported. */
    function SubList(fromIndex: int, toIndex: int): (r: Result<PagedList<E>, Error>)
      ensures r.Failure? && r.error == SubListUnsupported
    {
      Failure(SubListUnsupported)
    }
  }

  /** The first position of `e` in `s`, or `-1` (Kotlin's `List.indexOf`). */
  function FirstIndex<E(==)>(s: seq<E>, e: E): (r: int)
    ensures -1 <= r < |s|
    ensures r == -1 <==> e !in s
    ensures r != -1 ==> s[r] == e && e !in s[..r]
  {
    if s == [] then -1
    else if s[0] == e then 0
    else
      var i := FirstIndex(s[1..], e);
      if i == -1 then -1
      else
        assert s[1..][..i] == s[1..i + 1];
        i + 1
  }

  /** The last position of `e` in `s`, or `-1` (Kotlin's `List.lastIndexOf`). */
  function LastIndex<E(==)>(s: seq<E>, e: E): (r: int)
    ensures -1 <= r < |s|
    ensures r == -1 <==> e !in s
    ensures r != -1 ==> s[r] == e && e !in s[r + 1..]
  {
    if s == [] then -1
    else if s[|s| - 1] == e then |s| - 1
    else
      var i := LastIndex(s[..|s| - 1], e);
      assert i != -1 ==> s[i + 1..] == s[..|s| - 1][i + 1..] + [s[|s| - 1]];
      assert s == s[..|s| - 1] + [s[|s| - 1]];
      i
  }

  /** Membership ranges over the loaded items only: the loader slot holds no element. */
  function Contains<E(==)>(p: PagedList<E>, element: E): (r: bool)
    ensures r <==> exists i :: 0 <= i < p.Size() && p.Get(i) == Success(element)
  {
    if element in p.actualList then
      var i := FirstIndex(p.actualList, element);
      assert p.Get(i) == Success(element);
      true
    else
      false
  }

  /** The position of the first data element equal to `element`; never the loader slot. */
  function IndexOf<E(==)>(p: PagedList<E>, element: E): (r: int)
    ensures r == -1 <==> !Contains(p, element)
    ensures r != -1 ==> 0 <= r < p.Size() && !p.IsLoaderItem(r) && p.Get(r) == Success(element)
    ensures r != -1 ==> forall i :: 0 <= i < r ==> p.Get(i) != Success(element)
  {
    FirstIndex(p.actualList, element)
  }

  /** The position of the last data element equal to `element`; never the loader slot. */
  function LastIndexOf<E(==)>(p: PagedList<E>, element: E): (r: int)
    ensures r == -1 <==> !Contains(p, element)
    ensures r != -1 ==> 0 <= r < p.Size() && !p.IsLoaderItem(r) && p.Get(r) == Success(element)
    ensures r != -1 ==> forall i :: r < i < p.Size() ==> p.Get(i) != Success(element)
  {
    LastIndex(p.actualList, element)
  }

  /**
    The virtual index space is the loaded items' indices followed by at most one
    loader slot: every virtual index is exactly one of the two.
   */
  lemma VirtualIndexSpace<E>(p: PagedList<E>, position: int)
    ensures 0 <= position < p.Size() <==> (0 <= position < |p.actualList| || p.IsLoaderItem(position))
    ensures !(0 <= position < |p.actualList| && p.IsLoaderItem(position))
  {
  }

  /** The loader slot is unique: the set of loader positions is `{|actualList|}` or empty. */
  lemma LoaderSlots<E>(p: PagedList<E>)
    ensures (set i | 0 <= i < p.Size() && p.IsLoaderItem(i)) == if p.hasNext then {|p.actualList|} else {}
    ensures forall i :: p.IsLoaderItem(i) ==> i == p.IndexOfLoader()
  {
  }
}
