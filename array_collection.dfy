/** `ArrayCollection`: a collection over an array. `push` and `put` change the
    array in place; `chunk`, `map`, `slice`, `sort` and `sortBy` build a new
    collection and leave the array alone. */
module ArrayCollections {
  import opened OrderedMaps
  import opened JsValues
  import opened Helpers
  import opened Comparisons
  import opened Sorting
  import opened CollectionBase
  import opened CollectionBuilders
  import opened Chunks
  import opened SortKeys

  /** `collect(acc)` of the chunks `chunk(size)` builds: a collection of arrays. */
  function ChunkedArrays(xs: seq<Value>, size: int): Outcome<Coll>
  {
    match ChunkAcc(xs, size)
    case TypeError => TypeError
    case Ok(acc) => Ok(SeqColl(Arrs(acc)))
  }

  /** The index `Array.prototype.slice` starts or stops at: counted from the end
      when negative, and clamped to the array. */
  function RelativeIndex(rel: int, len: nat): (i: nat)
    ensures i <= len
    ensures 0 <= rel <= len ==> i == rel
  {
    if rel < 0 then (if len + rel < 0 then 0 else len + rel)
    else if rel > len then len
    else rel
  }

  /** `xs.slice(start, end)`, with an undefined end meaning the end of `xs`. */
  function JsSlice(xs: seq<Value>, start: int, end: Option<int>): (r: seq<Value>)
    ensures exists a, b :: 0 <= a <= b <= |xs| && r == xs[a..b]
  {
    var from := RelativeIndex(start, |xs|);
    var to := match end case None => |xs| case Some(e) => RelativeIndex(e, |xs|);
    if to <= from then
      assert xs[from..from] == [];
      []
    else xs[from..to]
  }

  class ArrayCollection {
    var items: seq<Value>

    constructor(items: seq<Value>)
      ensures this.items == items
    {
      this.items := items;
    }

    /** `all()`: the array, which the base-class operations work on; its entries
        are the index names and the elements. */
    function All(): (c: Coll)
      reads this
      ensures Entries(c) == ArrayEntries(items)
      ensures Vals(Entries(c)) == items
    {
      SeqColl(items)
    }

    /** `count()` agrees with the base class's `length`: one per element. */
    function Count(): (n: nat)
      reads this
      ensures n == Length(All()) && n == |items|
    {
      |items|
    }

    /** `u.push(...vs)`: the values are appended in order, in place. */
    method Push(vs: seq<Value>)
      modifies this
      ensures items == old(items) + vs
      ensures Count() == old(Count()) + |vs|
    {
      items := items + vs;
    }

    /** `put(key, value)`: `parseInt(key)` below the length names the slot to
        overwrite; any other key, NaN included, appends. A negative index writes
        an own property such as `"-1"` that is not an element; `items` holds only
        the elements, so the model does not keep that property, and the elements
        stay as they are. */
    method Put(key: string, value: Value)
      modifies this
      ensures var n := ParseInt(key);
              && (n.Some? && 0 <= n.value < |old(items)| ==> items == old(items)[n.value := value])
              && (n.Some? && n.value < 0 ==> items == old(items))
              && (n.None? || n.value >= |old(items)| ==> items == old(items) + [value])
    {
      var intKey := ParseInt(key);
      if intKey.Some? && intKey.value < |items| {
        if intKey.value >= 0 {
          items := items[intKey.value := value];
        }
      } else {
        items := items + [value];
      }
    }

    /** `chunk(size)`: the reduction into sub-arrays. */
    method Chunk(size: int) returns (r: Outcome<Coll>)
      ensures r == ChunkedArrays(items, size)
    {
      var acc := ChunkReduce(items, size);
      if acc.TypeError? {
        return TypeError;
      }
      return Ok(SeqColl(Arrs(acc.value)));
    }

    /** `map(callback)`: `callback(value, key)` for each entry, in order, into a new
        array; the first throw propagates. */
    function Map(cb: Callback): (r: Outcome<Coll>)
      reads this
      ensures r.TypeError? <==> exists i :: 0 <= i < |items| && cb(items[i], NatToString(i)).TypeError?
      ensures r.Ok? ==> r.value.SeqColl? && |r.value.items| == |items|
      ensures r.Ok? ==> forall i :: 0 <= i < |items| ==> cb(items[i], NatToString(i)) == Ok(r.value.items[i])
    {
      match MapValues(items, cb)
      case TypeError => TypeError
      case Ok(ys) => Ok(SeqColl(ys))
    }

    /** `slice(offset, length)`: the elements from `offset` on, `length` of them
        when `length` is truthy and all the rest otherwise (a length of 0 counts
        as absent). */
    function Slice(offset: int, length: Option<int>): (r: Coll)
      reads this
      ensures r.SeqColl? && exists a, b :: 0 <= a <= b <= |items| && r.items == items[a..b]
      ensures 0 <= offset <= |items| && (length.None? || length.value == 0) ==> r.items == items[offset..]
      ensures 0 <= offset && length.Some? && 0 < length.value && offset + length.value <= |items| ==>
                r.items == items[offset..offset + length.value]
    {
      var end := if length.Some? && length.value != 0 then Some(length.value + offset) else None;
      SeqColl(JsSlice(items, offset, end))
    }

    /** `sort(compare, descending)`: a sorted copy. The elements are permuted,
        `undefined` ones go last, and with the default `compared` the others come
        out in order; the default comparison throws exactly when two defined
        elements remain and one of them is null. */
    function Sort(compare: Option<Comparator<Value>>, descending: bool): (r: Outcome<Coll>)
      reads this
      ensures r.Ok? ==> r.value.SeqColl? && multiset(r.value.items) == multiset(items)
      ensures r.Ok? ==> forall i, j :: 0 <= i < j < |r.value.items| && r.value.items[i] == Undef ==> r.value.items[j] == Undef
      ensures r.Ok? && compare.None? ==>
                forall i :: 0 <= i < |r.value.items| - 1 && r.value.items[i + 1] != Undef ==>
                  InOrder(DefaultComparator(None, descending), r.value.items[i], r.value.items[i + 1])
      ensures compare.None? ==>
                (r.TypeError? <==> var d := SplitUndefined(items).0; |d| >= 2 && exists i :: 0 <= i < |d| && d[i] == Null)
    {
      var cmp := DefaultComparator(compare, descending);
      if compare.None? then
        ComparedComparatorAntisymmetric(descending);
        ArraySortSorted(items, cmp);
        ArraySortFails(items, cmp, IsNullish);
        ComparedNullishCount(SplitUndefined(items).0);
        SortedCollection(items, cmp)
      else
        SortedCollection(items, cmp)
    }

    /** `sortBy(key, descending)`: a sorted copy ordered by a property, by a list of
        `[name, direction]` pairs, or by a numeric key. The elements are permuted,
        `undefined` ones go last, and the others come out in the key's order. */
    function SortBy(key: SortKey, descending: bool): (r: Outcome<Coll>)
      reads this
      ensures r.Ok? ==> r.value.SeqColl? && multiset(r.value.items) == multiset(items)
      ensures r.Ok? ==> forall i, j :: 0 <= i < j < |r.value.items| && r.value.items[i] == Undef ==> r.value.items[j] == Undef
      ensures r.Ok? ==>
                forall i :: 0 <= i < |r.value.items| - 1 && r.value.items[i + 1] != Undef ==>
                  InOrder(KeyComparator(key, descending), r.value.items[i], r.value.items[i + 1])
    {
      KeyComparatorAntisymmetric(key, descending);
      ArraySortSorted(items, KeyComparator(key, descending));
      SortedCollection(items, KeyComparator(key, descending))
    }
  }

  /** `collect([...xs].sort(cmp))`. */
  function SortedCollection(xs: seq<Value>, cmp: Comparator<Value>): (r: Outcome<Coll>)
    ensures r.TypeError? <==> ArraySort(xs, cmp).TypeError?
    ensures r.Ok? ==> r.value == SeqColl(ArraySort(xs, cmp).value)
  {
    match ArraySort(xs, cmp)
    case TypeError => TypeError
    case Ok(ys) => Ok(SeqColl(ys))
  }

  /** Among elements none of which is `undefined`, the ones `compared` throws on
      are the nulls. */
  lemma ComparedNullishCount(d: seq<Value>)
    requires forall i :: 0 <= i < |d| ==> d[i] != Undef
    ensures (exists i :: 0 <= i < |d| && IsNullish(d[i])) <==> (exists i :: 0 <= i < |d| && d[i] == Null)
  {
  }

  /** `compared` throws exactly on null and undefined operands. */
  lemma ComparedFailsOnNullish(descending: bool)
    ensures FailsExactlyOn(DefaultComparator(None, descending), IsNullish)
  {
  }

  /** `chunk(size)` with a positive size: the chunks concatenate to the array and
      all but the last are full. */
  lemma ChunkShape(xs: seq<Value>, size: int)
    requires size > 0
    ensures ChunkedArrays(xs, size).Ok?
    ensures var cs := ChunkedArrays(xs, size).value.items;
            && (forall i :: 0 <= i < |cs| ==> cs[i].Arr?)
            && (forall i :: 0 <= i < |cs| - 1 ==> |cs[i].elems| == size)
            && (|cs| > 0 ==> 0 < |cs[|cs| - 1].elems| <= size)
            && Flatten(seq(|cs|, i requires 0 <= i < |cs| => cs[i].elems)) == xs
  {
    ChunkAccShape(xs, size);
    var acc := ChunkAcc(xs, size).value;
    var cs := Arrs(acc);
    assert seq(|cs|, i requires 0 <= i < |cs| => cs[i].elems) == acc;
  }

  /** Round trip: collapsing the chunks gives back the array. */
  lemma ChunkCollapse(xs: seq<Value>, size: int)
    requires size > 0
    ensures ChunkedArrays(xs, size).Ok? && Collapse(ChunkedArrays(xs, size).value) == Ok(SeqColl(xs))
  {
    ChunkAccShape(xs, size);
    FlatOfArrs(ChunkAcc(xs, size).value);
  }

  /** A size of zero throws on any element; a negative size throws from the second
      element on. */
  lemma ChunkNonPositive(xs: seq<Value>, size: int)
    requires size <= 0
    ensures ChunkedArrays(xs, size).Ok? <==> |xs| == 0 || (size < 0 && |xs| == 1)
  {
    if size == 0 {
      ChunkAccZero(xs);
    } else {
      ChunkAccNegative(xs, size);
    }
  }

  /** `map` with the callback that returns the value gives the array back. */
  lemma MapIdentity(c: ArrayCollection)
    ensures c.Map((v, k) => Ok(v)) == Ok(SeqColl(c.items))
  {
    var r := c.Map((v, k) => Ok(v));
    assert r.Ok?;
    assert r.value.items == c.items;
  }
}
