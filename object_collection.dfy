/** `ObjectCollection`: a collection over a plain object, whose own properties
    are kept as key/value pairs in enumeration order with distinct keys. `push`
    and `put` assign properties in place; `chunk`, `map`, `slice`, `sort` and
    `sortBy` build a new object and leave this one alone. */
module ObjectCollections {
  import opened OrderedMaps
  import opened JsValues
  import opened Helpers
  import opened Comparisons
  import opened Sorting
  import opened CollectionBase
  import opened CollectionBuilders
  import opened Chunks
  import opened SortKeys

  /** The chunks of `chunk(size)` as objects. */
  function Objs(acc: seq<seq<(string, Value)>>): (vs: seq<Value>)
    ensures |vs| == |acc| && forall i :: 0 <= i < |acc| ==> vs[i] == Obj(acc[i])
  {
    seq(|acc|, i requires 0 <= i < |acc| => Obj(acc[i]))
  }

  /** `collect(acc)` of the objects `chunk(size)` builds: a collection of objects. */
  function ChunkedObjects(es: seq<(string, Value)>, size: int): Outcome<Coll>
  {
    match ChunkAcc(es, size)
    case TypeError => TypeError
    case Ok(acc) => Ok(SeqColl(Objs(acc)))
  }

  /** `callback(v, k)` for each property in order, under the same key; the first
      throw propagates. */
  function MapEntries(es: seq<(string, Value)>, cb: Callback): (r: Outcome<seq<(string, Value)>>)
    ensures r.Ok? ==> |r.value| == |es| && forall i :: 0 <= i < |es| ==> r.value[i].0 == es[i].0 && cb(es[i].1, es[i].0) == Ok(r.value[i].1)
    ensures r.TypeError? <==> exists i :: 0 <= i < |es| && cb(es[i].1, es[i].0).TypeError?
    decreases |es|
  {
    if |es| == 0 then Ok([])
    else
      var init, e := es[..|es| - 1], es[|es| - 1];
      assert forall i :: 0 <= i < |init| ==> init[i] == es[i];
      match MapEntries(init, cb)
      case TypeError => TypeError
      case Ok(ps) =>
        match cb(e.1, e.0)
        case TypeError => TypeError
        case Ok(y) => Ok(ps + [(e.0, y)])
  }

  /** The test `slice` applies to each entry as written, where `index` is never
      incremented and so is 0 for every entry. */
  predicate SliceTestAtZero(offset: int, length: Option<int>)
  {
    0 >= offset && (length.Some? && length.value != 0 ==> 0 <= offset + length.value)
  }

  /** What `slice(offset, length)` builds as written: every property when the test
      passes at index 0, and none otherwise. */
  function SliceAsWrittenEntries(es: seq<(string, Value)>, offset: int, length: Option<int>): (r: seq<(string, Value)>)
    ensures offset > 0 ==> r == []
    ensures offset <= 0 && (length.None? || length.value == 0) ==> r == es
  {
    if SliceTestAtZero(offset, length) then es else []
  }

  /** Where the window `slice(offset, length)` is meant to take starts, for a
      prefix of `n` entries. */
  function SliceLo(n: nat, offset: int): (lo: nat)
    ensures lo <= n
  {
    if offset <= 0 then 0 else Min(offset, n)
  }

  /** Where the window ends: `length` entries on from `offset` when `length` is
      truthy, the end otherwise. */
  function SliceHi(n: nat, offset: int, length: Option<int>): (hi: nat)
    ensures SliceLo(n, offset) <= hi <= n
  {
    var lo := SliceLo(n, offset);
    if length.Some? && length.value != 0 then
      (if offset + length.value <= lo then lo else Min(offset + length.value, n))
    else n
  }

  /** The properties at positions `offset` up to `offset + length`, the evidently
      intended result of `slice`. */
  function SliceWindow(es: seq<(string, Value)>, offset: int, length: Option<int>): (r: seq<(string, Value)>)
    ensures 0 <= offset <= |es| && (length.None? || length.value == 0) ==> r == es[offset..]
    ensures 0 <= offset && length.Some? && 0 < length.value && offset + length.value <= |es| ==>
              r == es[offset..offset + length.value]
    ensures length.Some? && 0 < length.value ==> |r| <= length.value
    ensures offset >= |es| ==> r == []
  {
    es[SliceLo(|es|, offset)..SliceHi(|es|, offset, length)]
  }

  class ObjectCollection {
    var items: seq<(string, Value)>

    /** A JavaScript object never has two own properties with the same key. */
    ghost predicate Valid()
      reads this
    {
      UniqueKeys(items)
    }

    constructor(items: seq<(string, Value)>)
      requires UniqueKeys(items)
      ensures Valid() && this.items == items
    {
      this.items := items;
    }

    /** `all()`: the object, whose entries are its properties in order. */
    function All(): (c: Coll)
      reads this
      ensures Entries(c) == items
    {
      MapColl(items)
    }

    /** `count()`: the number of own keys, which is what `length` returns. */
    function Count(): (n: nat)
      reads this
      ensures n == Length(All()) && n == |items|
    {
      |items|
    }

    /** `chunk(size)`: the keys are reduced into objects in order. Key number `ind`
        goes into the object `Math.floor(ind / size)`, a new one when that is the
        number of objects so far; any other index throws. */
    method Chunk(size: int) returns (r: Outcome<Coll>)
      requires Valid()
      ensures r == ChunkedObjects(items, size)
    {
      var keys := KeysOf(All()).items;
      var acc: seq<seq<(string, Value)>> := [];
      for ind := 0 to |keys|
        invariant ChunkAcc(items[..ind], size) == Ok(acc)
      {
        var key := keys[ind].s;
        LookupOfMember(items, ind);
        var v := Lookup(items, key).value;
        var next := ChunkVisit(items, size, ind, acc, key, v);
        if next.TypeError? {
          ChunkAccThrowsOnPrefix(items, size, ind + 1);
          return TypeError;
        }
        acc := next.value;
      }
      assert items[..|keys|] == items;
      return Ok(SeqColl(Objs(acc)));
    }

    /** `map(callback)`: a new object with the same keys in the same order, each
        value replaced by `callback(value, key)`; the first throw propagates. */
    method Map(cb: Callback) returns (r: Outcome<Coll>)
      requires Valid()
      ensures r.TypeError? <==> exists i :: 0 <= i < |items| && cb(items[i].1, items[i].0).TypeError?
      ensures r.Ok? ==> r.value.MapColl? && Keys(r.value.fields) == Keys(items)
      ensures r.Ok? ==> forall i :: 0 <= i < |items| ==> cb(items[i].1, items[i].0) == Ok(r.value.fields[i].1)
      ensures r.Ok? ==> r.value == MapColl(MapEntries(items, cb).value)
    {
      var newObj: seq<(string, Value)> := [];
      for i := 0 to |items|
        invariant MapEntries(items[..i], cb) == Ok(newObj)
      {
        var (k, v) := items[i];
        assert items[..i + 1][..i] == items[..i];
        var y := cb(v, k);
        if y.TypeError? {
          return TypeError;
        }
        KeyNotInPrefix(items, i);
        assert Keys(newObj) == Keys(items[..i]);
        SetAppendsNewKey(newObj, k, y.value);
        newObj := Set(newObj, k, y.value);
      }
      assert items[..|items|] == items;
      assert Keys(newObj) == Keys(items);
      return Ok(MapColl(newObj));
    }

    /** `push(...vs)`: `iterate` assigns `vs[i]` under the key "i" for each index
        in order, once for `vs.entries()` and once for `Object.keys(vs)`. */
    method Push(vs: seq<Value>)
      requires Valid()
      modifies this
      ensures Valid()
      ensures items == SetAll(old(items), IterateCalls(vs))
    {
      var calls := IterateCalls(vs);
      ghost var start := items;
      for j := 0 to |calls|
        invariant items == SetAll(start, calls[..j])
      {
        SetAllPrefixStep(start, calls, j);
        items := Set(items, calls[j].0, calls[j].1);
      }
      assert calls[..|calls|] == calls;
    }

    /** `put(key, value)`: the property `key` is assigned in place, replacing the
        value of an existing key where it stands and adding a new key last. */
    method Put(key: string, value: Value)
      requires Valid()
      modifies this
      ensures Valid()
      ensures items == Set(old(items), key, value)
      ensures Lookup(items, key) == Some(value)
      ensures forall k :: k != key ==> Lookup(items, k) == Lookup(old(items), k)
    {
      ghost var before := items;
      forall k ensures Lookup(Set(before, key, value), k) == if k == key then Some(value) else Lookup(before, k) {
        SetLookup(before, key, value, k);
      }
      items := Set(items, key, value);
    }

    /** `slice(offset, length)` as written: `index` starts at 0 and is never
        incremented, so every entry passes or fails the same test. */
    method SliceAsWritten(offset: int, length: Option<int>) returns (r: Coll)
      requires Valid()
      ensures r.MapColl?
      ensures r.fields == (if SliceTestAtZero(offset, length) then items else [])
      ensures r.fields == SliceAsWrittenEntries(items, offset, length)
    {
      var index := 0;
      var newObj: seq<(string, Value)> := [];
      for i := 0 to |items|
        invariant newObj == if SliceTestAtZero(offset, length) then items[..i] else []
      {
        var (k, v) := items[i];
        if index >= offset {
          if length.Some? && length.value != 0 {
            if index <= offset + length.value {
              AssignNextKey(items, i);
              newObj := Set(newObj, k, v);
            }
          } else {
            AssignNextKey(items, i);
            newObj := Set(newObj, k, v);
          }
        }
      }
      assert items[..|items|] == items;
      return MapColl(newObj);
    }

    /** `slice(offset, length)` with `index` counting the entries and the end
        excluded: the properties at positions `offset` up to `offset + length`. */
    method Slice(offset: int, length: Option<int>) returns (r: Coll)
      requires Valid()
      ensures r == MapColl(SliceWindow(items, offset, length))
    {
      var newObj := SliceLoop(items, offset, length);
      return MapColl(newObj);
    }

    /** `sort(compare, descending)`: the entries sorted by their values, back into
        an object. The properties are only reordered; with the default `compared`
        the values come out in order, and the sort throws exactly when there are
        two entries or more and a value is null or undefined. */
    function Sort(compare: Option<Comparator<Value>>, descending: bool): (r: Outcome<Coll>)
      requires Valid()
      reads this
      ensures r.Ok? ==> r.value.MapColl? && multiset(r.value.fields) == multiset(items) && UniqueKeys(r.value.fields)
      ensures r.Ok? && compare.None? ==>
                forall i :: 0 <= i < |r.value.fields| - 1 ==>
                  InOrder(DefaultComparator(None, descending), r.value.fields[i].1, r.value.fields[i + 1].1)
      ensures compare.None? ==>
                (r.TypeError? <==> |items| >= 2 && exists i :: 0 <= i < |items| && IsNullish(items[i].1))
    {
      var cmp := OnValues(DefaultComparator(compare, descending));
      if compare.None? then
        ComparedComparatorAntisymmetric(descending);
        SortOnValuesOrders(items, DefaultComparator(None, descending));
        DefaultSortThrows(items, descending);
        SortedObject(items, cmp)
      else
        SortedObject(items, cmp)
    }

    /** `sortBy(key, descending)`: the entries sorted by a property of their values,
        by a list of `[name, direction]` pairs or by a numeric key, back into an
        object. The properties are only reordered, and the values come out in the
        key's order. */
    function SortBy(key: SortKey, descending: bool): (r: Outcome<Coll>)
      requires Valid()
      reads this
      ensures r.Ok? ==> r.value.MapColl? && multiset(r.value.fields) == multiset(items) && UniqueKeys(r.value.fields)
      ensures r.Ok? ==>
                forall i :: 0 <= i < |r.value.fields| - 1 ==>
                  InOrder(KeyComparator(key, descending), r.value.fields[i].1, r.value.fields[i + 1].1)
    {
      var cmp := OnValues(KeyComparator(key, descending));
      KeyComparatorAntisymmetric(key, descending);
      SortOnValuesOrders(items, KeyComparator(key, descending));
      SortedObject(items, cmp)
    }
  }

  /** An entry whose value `compared` throws on. */
  predicate NullishValue(e: (string, Value))
  {
    IsNullish(e.1)
  }

  /** The default comparator on entries throws exactly on entries with a null or
      undefined value. */
  lemma EntryComparatorFails(descending: bool)
    ensures FailsExactlyOn(OnValues(DefaultComparator(None, descending)), NullishValue)
  {
  }

  /** The loop of `slice`: `index` counts the properties, and the ones inside the
      window are assigned into a fresh object. */
  method SliceLoop(es: seq<(string, Value)>, offset: int, length: Option<int>) returns (newObj: seq<(string, Value)>)
    requires UniqueKeys(es)
    ensures newObj == SliceWindow(es, offset, length)
  {
    var index := 0;
    newObj := [];
    for i := 0 to |es|
      invariant index == i
      invariant newObj == SliceWindow(es[..i], offset, length)
    {
      newObj := SliceVisit(es, offset, length, index, newObj);
      index := index + 1;
    }
    assert es[..|es|] == es;
  }

  /** One pass of the `slice` loop: the property at `index` is assigned when the
      index is inside the window. */
  method SliceVisit(es: seq<(string, Value)>, offset: int, length: Option<int>, index: nat, newObj: seq<(string, Value)>)
      returns (next: seq<(string, Value)>)
    requires UniqueKeys(es) && index < |es| && newObj == SliceWindow(es[..index], offset, length)
    ensures next == SliceWindow(es[..index + 1], offset, length)
  {
    var (k, v) := es[index];
    SliceAdvance(es, offset, length, index);
    next := newObj;
    if index >= offset && (length.Some? && length.value != 0 ==> index < offset + length.value) {
      next := Set(newObj, k, v);
    }
  }

  /** Sorting entries by their values with a comparator that may keep equal
      values in place leaves the values in order. */
  lemma SortOnValuesOrders(es: seq<(string, Value)>, cmp: Comparator<Value>)
    requires Antisymmetric(cmp)
    ensures var r := SortWith(es, OnValues(cmp));
            r.Ok? ==> forall i :: 0 <= i < |r.value| - 1 ==> InOrder(cmp, r.value[i].1, r.value[i + 1].1)
  {
    OnValuesAntisymmetric(cmp);
    SortWithSorted(es, OnValues(cmp));
  }

  /** The default sort of entries throws exactly when there are two of them or
      more and one has a null or undefined value. */
  lemma DefaultSortThrows(es: seq<(string, Value)>, descending: bool)
    ensures SortWith(es, OnValues(DefaultComparator(None, descending))).TypeError? <==>
              |es| >= 2 && exists i :: 0 <= i < |es| && IsNullish(es[i].1)
  {
    EntryComparatorFails(descending);
    SortWithFails(es, OnValues(DefaultComparator(None, descending)), NullishValue);
    assert (exists i :: 0 <= i < |es| && NullishValue(es[i])) <==> (exists i :: 0 <= i < |es| && IsNullish(es[i].1));
  }

  /** `collect(entriesToObject(entries.sort(cmp)))`. Sorting only reorders
      entries whose keys are distinct, so rebuilding the object keeps them all. */
  function SortedObject(es: seq<(string, Value)>, cmp: Comparator<(string, Value)>): (r: Outcome<Coll>)
    requires UniqueKeys(es)
    ensures r.TypeError? <==> SortWith(es, cmp).TypeError?
    ensures r.Ok? ==> r.value == MapColl(SortWith(es, cmp).value)
    ensures r.Ok? ==> multiset(r.value.fields) == multiset(es) && UniqueKeys(r.value.fields)
  {
    match SortWith(es, cmp)
    case TypeError => TypeError
    case Ok(sorted) =>
      PermutationKeepsUnique(es, sorted);
      FromEntriesOfUnique(sorted);
      Ok(MapColl(FromEntries(sorted)))
  }

  /** One pass of the `chunk` reduction on an object: property `ind` starts a new
      object, is assigned into an existing one, or the reduction throws because
      the sub-index is not a valid index of the accumulator. */
  method ChunkVisit(es: seq<(string, Value)>, size: int, ind: nat, acc: seq<seq<(string, Value)>>, key: string, v: Value)
      returns (r: Outcome<seq<seq<(string, Value)>>>)
    requires UniqueKeys(es) && ind < |es| && es[ind] == (key, v)
    requires ChunkAcc(es[..ind], size) == Ok(acc)
    ensures r == ChunkAcc(es[..ind + 1], size)
  {
    assert es[..ind + 1] == es[..ind] + [es[ind]];
    ChunkAccSnoc(es[..ind], es[ind], size);
    var subIndex := SubIndex(ind, size);
    if subIndex.Some? && subIndex.value == |acc| {
      return Ok(acc + [[(key, v)]]);
    } else if subIndex.Some? && 0 <= subIndex.value < |acc| {
      ChunkKeyIsNew(es, size, ind, subIndex.value);
      SetAppendsNewKey(acc[subIndex.value], key, v);
      return Ok(acc[subIndex.value := Set(acc[subIndex.value], key, v)]);
    }
    return TypeError;
  }

  /** A property already placed in chunk `s` comes before position `ind`, so its
      key differs from the key at `ind`. */
  lemma ChunkKeyIsNew(es: seq<(string, Value)>, size: int, ind: nat, s: nat)
    requires UniqueKeys(es) && ind < |es|
    requires ChunkAcc(es[..ind], size).Ok? && s < |ChunkAcc(es[..ind], size).value|
    ensures es[ind].0 !in Keys(ChunkAcc(es[..ind], size).value[s])
  {
    var chunk := ChunkAcc(es[..ind], size).value[s];
    forall q | 0 <= q < |chunk| ensures Keys(chunk)[q] != es[ind].0 {
      ChunkAccMembers(es[..ind], size, s, chunk[q]);
      var p :| 0 <= p < ind && es[..ind][p] == chunk[q];
      assert es[p] == chunk[q];
    }
  }

  /** One more entry either extends the window by that entry or leaves it as is. */
  lemma SliceWindowStep(es: seq<(string, Value)>, offset: int, length: Option<int>, i: nat)
    requires i < |es|
    ensures var kept := i >= offset && (length.Some? && length.value != 0 ==> i < offset + length.value);
            && (kept ==> SliceWindow(es[..i + 1], offset, length) == SliceWindow(es[..i], offset, length) + [es[i]])
            && (!kept ==> SliceWindow(es[..i + 1], offset, length) == SliceWindow(es[..i], offset, length))
            && (kept ==> SliceWindow(es[..i], offset, length) == es[SliceLo(i, offset)..i])
  {
    var kept := i >= offset && (length.Some? && length.value != 0 ==> i < offset + length.value);
    var lo0, hi0 := SliceLo(i, offset), SliceHi(i, offset, length);
    var lo1, hi1 := SliceLo(i + 1, offset), SliceHi(i + 1, offset, length);
    if kept {
      assert lo1 == lo0 && hi0 == i && hi1 == i + 1;
      PrefixSliceGrows(es, lo0, i);
    } else if i < offset {
      assert lo1 == hi1 && lo0 == hi0;
    } else {
      assert lo1 == lo0 && hi1 == hi0 <= i;
      PrefixSliceStays(es, lo0, hi0, i);
    }
  }

  /** A window that ends at the end of a prefix grows with the prefix. */
  lemma PrefixSliceGrows<T>(s: seq<T>, lo: nat, i: nat)
    requires lo <= i < |s|
    ensures s[..i + 1][lo..i + 1] == s[..i][lo..i] + [s[i]]
    ensures s[..i][lo..i] == s[lo..i]
  {
    assert s[..i + 1][lo..i + 1] == s[lo..i + 1];
    assert s[lo..i + 1] == s[lo..i] + [s[i]];
  }

  /** A window that ends inside a prefix does not change when the prefix grows. */
  lemma PrefixSliceStays<T>(s: seq<T>, lo: nat, hi: nat, i: nat)
    requires lo <= hi <= i < |s|
    ensures s[..i + 1][lo..hi] == s[..i][lo..hi]
  {
    assert s[..i + 1][lo..hi] == s[lo..hi];
  }

  /** Assigning the next property, in order, onto the ones before it. */
  lemma AssignNextKey(es: seq<(string, Value)>, i: nat)
    requires UniqueKeys(es) && i < |es|
    ensures Set(es[..i], es[i].0, es[i].1) == es[..i + 1]
  {
    KeyNotInPrefix(es, i);
    SetAppendsNewKey(es[..i], es[i].0, es[i].1);
    assert es[..i + 1] == es[..i] + [es[i]];
  }

  /** One more property of `slice`'s loop: assigned to the new object when it is in
      the window, skipped otherwise. */
  lemma SliceAdvance(es: seq<(string, Value)>, offset: int, length: Option<int>, i: nat)
    requires UniqueKeys(es) && i < |es|
    ensures var kept := i >= offset && (length.Some? && length.value != 0 ==> i < offset + length.value);
            && (kept ==> SliceWindow(es[..i + 1], offset, length) == Set(SliceWindow(es[..i], offset, length), es[i].0, es[i].1))
            && (!kept ==> SliceWindow(es[..i + 1], offset, length) == SliceWindow(es[..i], offset, length))
  {
    SliceWindowStep(es, offset, length, i);
    var kept := i >= offset && (length.Some? && length.value != 0 ==> i < offset + length.value);
    if kept {
      var lo := SliceLo(i, offset);
      var w := SliceWindow(es[..i], offset, length);
      assert w == es[lo..i];
      forall j | 0 <= j < |w| ensures Keys(w)[j] != es[i].0 {
        assert w[j] == es[lo + j];
      }
      SetAppendsNewKey(w, es[i].0, es[i].1);
    }
  }

  /** `chunk(size)` with a positive size: object `i` holds the properties at
      positions `i * size` up to `i * size + size` with their values, and together
      the objects hold every property in order. */
  lemma ChunkLayout(es: seq<(string, Value)>, size: int)
    requires size > 0
    ensures ChunkedObjects(es, size).Ok?
    ensures var cs := ChunkedObjects(es, size).value.items;
            && (forall i :: 0 <= i < |cs| ==> 0 <= i * size < |es| && cs[i] == Obj(es[i * size .. Min(i * size + size, |es|)]))
            && Flatten(seq(|cs|, i requires 0 <= i < |cs| => cs[i].fields)) == es
  {
    ChunkAccLayout(es, size);
    ChunkAccShape(es, size);
    var acc := ChunkAcc(es, size).value;
    var cs := Objs(acc);
    assert seq(|cs|, i requires 0 <= i < |cs| => cs[i].fields) == acc;
  }

  /** `push` assigns each key "i" twice with the same value; the second pass changes
      nothing, so the effect is that of assigning the array's entries once. */
  lemma PushOnce(m: seq<(string, Value)>, vs: seq<Value>)
    requires UniqueKeys(m)
    ensures SetAll(m, IterateCalls(vs)) == SetAll(m, ArrayEntries(vs))
  {
    ArrayEntriesUnique(vs);
    SetAllAppend(m, ArrayEntries(vs), ArrayEntries(vs));
    SetAllAgain(m, ArrayEntries(vs));
  }

  /** After `push(...vs)` the key "i" holds `vs[i]`. */
  lemma PushSetsIndices(m: seq<(string, Value)>, vs: seq<Value>, i: nat)
    requires UniqueKeys(m) && i < |vs|
    ensures Lookup(SetAll(m, IterateCalls(vs)), NatToString(i)) == Some(vs[i])
  {
    PushOnce(m, vs);
    ArrayEntriesUnique(vs);
    LastIndexOfUnique(ArrayEntries(vs), i);
    SetAllLookup(m, ArrayEntries(vs), NatToString(i));
  }

  /** `push(...vs)` leaves a key that names no index of `vs` as it was. */
  lemma PushKeepsOtherKeys(m: seq<(string, Value)>, vs: seq<Value>, k: string)
    requires UniqueKeys(m)
    requires forall i :: 0 <= i < |vs| ==> k != NatToString(i)
    ensures Lookup(SetAll(m, IterateCalls(vs)), k) == Lookup(m, k)
  {
    PushOnce(m, vs);
    var ps := ArrayEntries(vs);
    forall i | 0 <= i < |ps| ensures ps[i].0 != k {
      assert ps[i].0 == NatToString(i);
    }
    KeyAbsent(ps, k);
    SetAllLookup(m, ps, k);
  }

  /** The keys there were before `push(...vs)` keep their places, first. */
  lemma PushKeepsOrder(m: seq<(string, Value)>, vs: seq<Value>)
    requires UniqueKeys(m)
    ensures |Keys(SetAll(m, IterateCalls(vs)))| >= |m| && Keys(SetAll(m, IterateCalls(vs)))[..|m|] == Keys(m)
  {
    PushOnce(m, vs);
    SetAllKeepsOldKeys(m, ArrayEntries(vs));
  }

  /** `slice` as written drops the second entry of a two-entry object at offset 1
      as well, where the entries from position 1 on are evidently meant. */
  lemma SliceIgnoresPosition()
    ensures var es := [("a", Num(1)), ("b", Num(2))];
            && SliceAsWrittenEntries(es, 1, None) == []
            && SliceWindow(es, 1, None) == [("b", Num(2))]
  {
  }

  /** `map` with the callback that returns the value gives the object back. */
  lemma MapIdentity(es: seq<(string, Value)>)
    ensures MapEntries(es, (v, k) => Ok(v)) == Ok(es)
  {
    var r := MapEntries(es, (v, k) => Ok(v));
    assert r.Ok?;
    assert r.value == es;
  }
}
