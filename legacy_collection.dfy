/** The older single-class `Collection`: a `Map` from string keys to values in
    insertion order, with a flag recording whether it was built from an array.
    An array's elements are stored under the keys "0", "1", ...; an object's
    properties under their own keys. */
module LegacyCollections {
  import opened OrderedMaps
  import opened JsValues
  import opened Helpers
  import opened CollectionBase
  import opened CollectionBuilders
  import opened Chunks
  import opened ObjectCollections

  /** A callback taking a value and a key. `first`, `last` and `map` over an array
      pass the position as a number; `map` over an object passes the key string. */
  type KeyedCallback = (Value, Value) -> Outcome<Value>

  /** The argument of `sum`: none, a field name, or a key function. */
  datatype SumArg = Whole | FieldSum(name: string) | KeyFn(f: Value -> Outcome<Value>)

  /** `all()`: the values in order for an array-built collection, and
      `Object.fromEntries` of the map otherwise. */
  function AllOf(items: seq<(string, Value)>, isArray: bool): (r: Value)
    ensures isArray ==> r == Arr(Vals(items))
    ensures !isArray ==> r.Obj? && UniqueKeys(r.fields)
  {
    if isArray then Arr(Vals(items)) else Obj(FromEntries(items))
  }

  /** The callback accepts the value at position `i`: it returns something truthy. */
  predicate Accepts(cb: KeyedCallback, v: Value, i: nat)
  {
    cb(v, Num(i)).Ok? && Truthy(cb(v, Num(i)).value)
  }

  /** The callback returns normally with something falsy. */
  predicate Rejects(cb: KeyedCallback, v: Value, i: nat)
  {
    cb(v, Num(i)).Ok? && !Truthy(cb(v, Num(i)).value)
  }

  /** `Array.prototype.map(callback)` over the values: `callback(v, i)` with the
      position as a number; the first throw propagates. */
  function MapIndexed(vs: seq<Value>, cb: KeyedCallback): (r: Outcome<seq<Value>>)
    ensures r.Ok? ==> |r.value| == |vs| && forall i :: 0 <= i < |vs| ==> cb(vs[i], Num(i)) == Ok(r.value[i])
    ensures r.TypeError? <==> exists i :: 0 <= i < |vs| && cb(vs[i], Num(i)).TypeError?
    decreases |vs|
  {
    if |vs| == 0 then Ok([])
    else
      var init := vs[..|vs| - 1];
      assert forall i :: 0 <= i < |init| ==> init[i] == vs[i];
      match MapIndexed(init, cb)
      case TypeError => TypeError
      case Ok(ys) =>
        match cb(vs[|vs| - 1], Num(|vs| - 1))
        case TypeError => TypeError
        case Ok(y) => Ok(ys + [y])
  }

  /** The callback as `each` over an object calls it, with the key string. */
  function StrKeyed(cb: KeyedCallback): (f: Callback)
    ensures forall v, k :: f(v, k) == cb(v, Str(k))
  {
    (v: Value, k: string) => cb(v, Str(k))
  }

  /** `reduce(callback, initial)`: the left fold of `callback(acc, v)` over the
      values. */
  function FoldValues<A>(vs: seq<Value>, cb: (A, Value) -> A, init: A): A
    decreases |vs|
  {
    if |vs| == 0 then init else cb(FoldValues(vs[..|vs| - 1], cb, init), vs[|vs| - 1])
  }

  /** A `reduce` callback that ignores the key. */
  function IgnoringKey<A(!new)>(cb: (A, Value) -> A): (f: (A, Value, string) -> A)
    ensures forall a, v, k :: f(a, v, k) == cb(a, v)
  {
    (a: A, v: Value, k: string) => cb(a, v)
  }

  /** One step of `sum()` and `sum(field)`: `pv + cv` or `pv + cv[field]`, with no
      conversion to a number; reading a field of null or undefined throws. */
  function LegacySumStep(field: Option<string>): (step: (Outcome<Value>, Value) -> Outcome<Value>)
  {
    (acc: Outcome<Value>, v: Value) =>
      match acc
      case TypeError => TypeError
      case Ok(pv) =>
        match field
        case None => Ok(JsPlus(pv, v))
        case Some(name) =>
          match GetProp(v, name)
          case TypeError => TypeError
          case Ok(x) => Ok(JsPlus(pv, x))
  }

  /** `pv + cv`. */
  function Plus(pv: Value, cv: Value): Value
  {
    JsPlus(pv, cv)
  }

  /** What `sum(key)` returns over the values `vs`. */
  function LegacySum(vs: seq<Value>, key: SumArg): Outcome<Value>
  {
    match key
    case Whole => FoldValues(vs, LegacySumStep(None), Ok(Num(0)))
    case FieldSum(name) => FoldValues(vs, LegacySumStep(Some(name)), Ok(Num(0)))
    case KeyFn(f) =>
      match MapIndexed(vs, (v: Value, i: Value) => f(v))
      case TypeError => TypeError
      case Ok(ys) => Ok(FoldValues(ys, Plus, Num(0)))
  }

  class Collection {
    var items: seq<(string, Value)>
    var isArray: bool

    /** A `Map` never holds a key twice. */
    ghost predicate Valid()
      reads this
    {
      UniqueKeys(items)
    }

    /** `new Collection(array)`: element `i` is set under the key `i + ''`. */
    constructor FromArray(xs: seq<Value>)
      ensures Valid() && isArray && items == ArrayEntries(xs)
    {
      items := [];
      isArray := true;
      new;
      ArrayEntriesUnique(xs);
      ghost var es := ArrayEntries(xs);
      for index := 0 to |xs|
        invariant isArray && items == es[..index]
      {
        KeyNotInPrefix(es, index);
        SetAppendsNewKey(items, NatToString(index), xs[index]);
        items := Set(items, NatToString(index), xs[index]);
        assert es[..index + 1] == es[..index] + [es[index]];
      }
      assert es[..|xs|] == es;
    }

    /** `new Collection(object)`: each key of `Object.keys(object)` is set, in that
        order, to its value. */
    constructor FromObject(fields: seq<(string, Value)>)
      requires UniqueKeys(fields)
      ensures Valid() && !isArray && items == fields
    {
      items := [];
      isArray := false;
      new;
      var keys := Keys(fields);
      for i := 0 to |keys|
        invariant !isArray && items == fields[..i]
      {
        var key := keys[i];
        LookupOfMember(fields, i);
        var value := Lookup(fields, key).value;
        KeyNotInPrefix(fields, i);
        SetAppendsNewKey(items, key, value);
        items := Set(items, key, value);
        assert fields[..i + 1] == fields[..i] + [fields[i]];
      }
      assert fields[..|keys|] == fields;
    }

    /** The `length` getter: the size of the map. */
    function Length(): (n: nat)
      reads this
      ensures n == |Keys(items)|
    {
      |items|
    }

    /** `all()`: for an array-built collection the values in order, otherwise the
        object with the map's keys and values. */
    function All(): (r: Value)
      requires Valid()
      reads this
      ensures isArray ==> r == Arr(Vals(items))
      ensures !isArray ==> r == Obj(items)
    {
      if !isArray then FromEntriesOfUnique(items); AllOf(items, isArray)
      else AllOf(items, isArray)
    }

    /** `chunk(size)`: the values reduced into arrays, collected into a new
        collection of arrays. */
    method Chunk(size: int) returns (r: Outcome<Collection>)
      ensures r.TypeError? <==> ChunkAcc(Vals(items), size).TypeError?
      ensures r.Ok? ==> fresh(r.value) && r.value.Valid() && r.value.isArray
                        && r.value.items == ArrayEntries(Arrs(ChunkAcc(Vals(items), size).value))
    {
      var acc := ChunkReduce(Vals(items), size);
      if acc.TypeError? {
        return TypeError;
      }
      var c := new Collection.FromArray(Arrs(acc.value));
      return Ok(c);
    }

    /** `each(callback)`: the map's entries in order, stopping right after the
        first call that returns exactly `false`; the result is the number of
        entries visited. */
    method Each(cb: Callback) returns (r: Outcome<nat>)
      ensures r.Ok? ==> r.value <= |items|
      ensures r.Ok? ==> forall i :: 0 <= i < r.value - 1 ==> Continues(cb, items[i])
      ensures r.Ok? && r.value < |items| ==> r.value > 0 && cb(items[r.value - 1].1, items[r.value - 1].0) == Ok(Bool(false))
      ensures r.TypeError? ==>
                exists j :: 0 <= j < |items| && cb(items[j].1, items[j].0).TypeError?
                         && forall i :: 0 <= i < j ==> Continues(cb, items[i])
    {
      r := CollectionBase.Each(MapColl(items), cb);
    }

    /** `get(key, defaultValue)`: the stored value when the map has the key, and
        the default otherwise. */
    function Get(key: string, default: Value): (r: Value)
      requires Valid()
      reads this
      ensures forall i :: 0 <= i < |items| && items[i].0 == key ==> r == items[i].1
      ensures key !in Keys(items) ==> r == default
    {
      match Lookup(items, key)
      case Some(v) =>
        LookupUnique(items, key);
        v
      case None => default
    }

    /** `first(callback)`: the first value the callback accepts, trying the
        positions in order, or null when it accepts none; without a callback, the
        first value or null. */
    method First(cb: Option<KeyedCallback>) returns (r: Outcome<Value>)
      requires Valid()
      ensures cb.None? ==> r == Ok(if |items| > 0 then items[0].1 else Null)
      ensures cb.Some? && r.TypeError? ==>
                exists i :: 0 <= i < |items| && cb.value(items[i].1, Num(i)).TypeError?
                         && forall j :: 0 <= j < i ==> Rejects(cb.value, items[j].1, j)
      ensures cb.Some? && r.Ok? ==>
                || (exists i :: 0 <= i < |items| && Accepts(cb.value, items[i].1, i) && r.value == items[i].1
                             && forall j :: 0 <= j < i ==> Rejects(cb.value, items[j].1, j))
                || (r.value == Null && forall j :: 0 <= j < |items| ==> Rejects(cb.value, items[j].1, j))
    {
      if cb.None? {
        var values := Vals(items);
        return Ok(if |items| > 0 then values[0] else Null);
      }
      var f := cb.value;
      var keys := new Collection.FromArray(KeysOf(MapColl(items)).items);
      for keyIndex := 0 to |items|
        invariant keys.Valid() && keys.items == ArrayEntries(KeysOf(MapColl(items)).items)
        invariant forall j :: 0 <= j < keyIndex ==> Rejects(f, items[j].1, j)
      {
        var value := ValueAt(keys, keyIndex);
        var hit := f(value, Num(keyIndex));
        if hit.TypeError? {
          return TypeError;
        }
        if Truthy(hit.value) {
          return Ok(value);
        }
      }
      return Ok(Null);
    }

    /** `last(callback)`: the last value the callback accepts, trying the positions
        from the end, or null when it accepts none; without a callback, the last
        value or null. */
    method Last(cb: Option<KeyedCallback>) returns (r: Outcome<Value>)
      requires Valid()
      ensures cb.None? ==> r == Ok(if |items| > 0 then items[|items| - 1].1 else Null)
      ensures cb.Some? && r.TypeError? ==>
                exists i :: 0 <= i < |items| && cb.value(items[i].1, Num(i)).TypeError?
                         && forall j :: i < j < |items| ==> Rejects(cb.value, items[j].1, j)
      ensures cb.Some? && r.Ok? ==>
                || (exists i :: 0 <= i < |items| && Accepts(cb.value, items[i].1, i) && r.value == items[i].1
                             && forall j :: i < j < |items| ==> Rejects(cb.value, items[j].1, j))
                || (r.value == Null && forall j :: 0 <= j < |items| ==> Rejects(cb.value, items[j].1, j))
    {
      if cb.None? {
        var values := Vals(items);
        return Ok(if |items| > 0 then values[|values| - 1] else Null);
      }
      var f := cb.value;
      var keys := new Collection.FromArray(KeysOf(MapColl(items)).items);
      var keyIndex: int := |items| - 1;
      while keyIndex > -1
        invariant -1 <= keyIndex < |items|
        invariant keys.Valid() && keys.items == ArrayEntries(KeysOf(MapColl(items)).items)
        invariant forall j :: keyIndex < j < |items| ==> Rejects(f, items[j].1, j)
      {
        var value := ValueAt(keys, keyIndex);
        var hit := f(value, Num(keyIndex));
        if hit.TypeError? {
          return TypeError;
        }
        if Truthy(hit.value) {
          return Ok(value);
        }
        keyIndex := keyIndex - 1;
      }
      return Ok(Null);
    }

    /** `this.items.get(keys.get(keyIndex + ''))`: the key at a position, looked up
        in the collection of keys, then its value. */
    method ValueAt(keys: Collection, keyIndex: nat) returns (value: Value)
      requires Valid() && keyIndex < |items|
      requires keys.Valid() && keys.items == ArrayEntries(KeysOf(MapColl(items)).items)
      ensures value == items[keyIndex].1
    {
      var key := keys.Get(NatToString(keyIndex), Undef);
      assert keys.items[keyIndex] == (NatToString(keyIndex), Str(items[keyIndex].0));
      value := Get(key.s, Undef);
    }

    /** `keys()`: a new array-built collection of the keys, in order. */
    method KeysColl() returns (c: Collection)
      ensures fresh(c) && c.Valid() && c.isArray
      ensures c.items == ArrayEntries(KeysOf(MapColl(items)).items)
    {
      c := new Collection.FromArray(KeysOf(MapColl(items)).items);
    }

    /** `values()`: a new array-built collection of the values, in order. */
    method Values() returns (c: Collection)
      ensures fresh(c) && c.Valid() && c.isArray && c.items == ArrayEntries(Vals(items))
    {
      c := new Collection.FromArray(Vals(items));
    }

    /** `map(callback)`: over an array, `Array.prototype.map` on the values, so the
        callback gets the position; over an object, `each` filling a new object
        under the same keys. */
    method Map(cb: KeyedCallback) returns (r: Outcome<Collection>)
      requires Valid()
      ensures isArray ==> (r.TypeError? <==> MapIndexed(Vals(items), cb).TypeError?)
      ensures !isArray ==> (r.TypeError? <==> MapEntries(items, StrKeyed(cb)).TypeError?)
      ensures r.Ok? ==> fresh(r.value) && r.value.Valid() && r.value.isArray == isArray
      ensures r.Ok? && isArray ==> r.value.items == ArrayEntries(MapIndexed(Vals(items), cb).value)
      ensures r.Ok? && !isArray ==> r.value.items == MapEntries(items, StrKeyed(cb)).value
    {
      if isArray {
        var ys := MapIndexed(Vals(items), cb);
        if ys.TypeError? {
          return TypeError;
        }
        var c := new Collection.FromArray(ys.value);
        return Ok(c);
      }
      var f := StrKeyed(cb);
      var newObj: seq<(string, Value)> := [];
      for i := 0 to |items|
        invariant MapEntries(items[..i], f) == Ok(newObj)
      {
        var (k, v) := items[i];
        assert items[..i + 1][..i] == items[..i];
        var y := cb(v, Str(k));
        if y.TypeError? {
          return TypeError;
        }
        KeyNotInPrefix(items, i);
        assert Keys(newObj) == Keys(items[..i]);
        SetAppendsNewKey(newObj, k, y.value);
        newObj := Set(newObj, k, y.value);
      }
      assert items[..|items|] == items;
      assert Keys(newObj) == Keys(items);
      var c := new Collection.FromObject(newObj);
      return Ok(c);
    }

    /** `reduce(callback, initialValue)`: `each` over `values()` reassigning the
        accumulator to `callback(accumulator, value)`. */
    method Reduce<A>(cb: (A, Value) -> A, init: A) returns (acc: A)
      ensures acc == FoldValues(Vals(items), cb, init)
    {
      var values := Vals(items);
      acc := init;
      for i := 0 to |values|
        invariant acc == FoldValues(values[..i], cb, init)
      {
        assert values[..i + 1][..i] == values[..i];
        acc := cb(acc, values[i]);
      }
      assert values[..|values|] == values;
    }

    /** `sum(key)`: with no key or a field name a `reduce` adding the values or
        their field; with a key function the mapped values added. */
    method Sum(key: SumArg) returns (r: Outcome<Value>)
      ensures r == LegacySum(Vals(items), key)
    {
      match key
      case Whole =>
        r := Reduce(LegacySumStep(None), Ok(Num(0)));
      case FieldSum(name) =>
        r := Reduce(LegacySumStep(Some(name)), Ok(Num(0)));
      case KeyFn(f) =>
        var mapped := MapIndexed(Vals(items), (v: Value, i: Value) => f(v));
        if mapped.TypeError? {
          return TypeError;
        }
        return Ok(FoldValues(mapped.value, Plus, Num(0)));
    }
  }

  /** In a map, the value found for `k` is the value of every pair with key `k`. */
  lemma LookupUnique(es: seq<(string, Value)>, k: string)
    requires UniqueKeys(es) && Lookup(es, k).Some?
    ensures forall i :: 0 <= i < |es| && es[i].0 == k ==> es[i].1 == Lookup(es, k).value
  {
    var j := LookupFound(es, k);
  }

  /** Round trip: a collection built from an array gives the array back. */
  lemma ArrayRoundTrip(xs: seq<Value>)
    ensures AllOf(ArrayEntries(xs), true) == Arr(xs)
    ensures |Keys(ArrayEntries(xs))| == |xs|
  {
    assert Vals(ArrayEntries(xs)) == xs;
  }

  /** Round trip: a collection built from an object gives the object back. */
  lemma ObjectRoundTrip(fields: seq<(string, Value)>)
    requires UniqueKeys(fields)
    ensures AllOf(fields, false) == Obj(fields)
  {
    FromEntriesOfUnique(fields);
  }

  /** `keys().all()` lists the keys in the order they were set. */
  lemma KeysInOrder(es: seq<(string, Value)>)
    ensures var ks := AllOf(ArrayEntries(KeysOf(MapColl(es)).items), true);
            ks.Arr? && |ks.elems| == |es| && forall i :: 0 <= i < |es| ==> ks.elems[i] == Str(es[i].0)
  {
    ArrayRoundTrip(KeysOf(MapColl(es)).items);
  }

  /** The keys of the two-product object come out as "prod-100", "prod-200". */
  lemma KeysExample(desk: Value, chair: Value)
    ensures AllOf(ArrayEntries(KeysOf(MapColl([("prod-100", desk), ("prod-200", chair)])).items), true)
            == Arr([Str("prod-100"), Str("prod-200")])
  {
    var es := [("prod-100", desk), ("prod-200", chair)];
    KeysInOrder(es);
    var ks := AllOf(ArrayEntries(KeysOf(MapColl(es)).items), true);
    assert ks.elems == [Str("prod-100"), Str("prod-200")];
  }

  /** `chunk(4)` of 1 to 7 gives [[1, 2, 3, 4], [5, 6, 7]]. */
  lemma ChunkOfSeven()
    ensures ChunkAcc(Nums([1, 2, 3, 4, 5, 6, 7]), 4) == Ok([Nums([1, 2, 3, 4]), Nums([5, 6, 7])])
    ensures AllOf(ArrayEntries(Arrs([Nums([1, 2, 3, 4]), Nums([5, 6, 7])])), true)
            == Arr([Arr(Nums([1, 2, 3, 4])), Arr(Nums([5, 6, 7]))])
  {
    var xs := Nums([1, 2, 3, 4, 5, 6, 7]);
    ChunkAccLayout(xs, 4);
    var acc := ChunkAcc(xs, 4).value;
    assert |acc| == 2;
    assert acc[0] == xs[0..4] == Nums([1, 2, 3, 4]);
    assert acc[1] == xs[4..7] == Nums([5, 6, 7]);
    assert acc == [Nums([1, 2, 3, 4]), Nums([5, 6, 7])];
    ArrayRoundTrip(Arrs(acc));
    assert Arrs(acc) == [Arr(Nums([1, 2, 3, 4])), Arr(Nums([5, 6, 7]))];
  }

  /** The legacy `reduce` over the values is the base class's `reduce` over the
      entries with a callback that ignores the key. */
  lemma {:induction false} FoldValuesAgrees<A(!new)>(es: seq<(string, Value)>, cb: (A, Value) -> A, init: A)
    ensures FoldValues(Vals(es), cb, init) == Fold(es, IgnoringKey(cb), init)
    decreases |es|
  {
    if |es| > 0 {
      var init' := es[..|es| - 1];
      FoldValuesAgrees(init', cb, init);
      assert Vals(es)[..|es| - 1] == Vals(init');
    }
  }

  /** Summing number values adds them. */
  lemma {:induction false} LegacySumOfNumbers(ns: seq<int>)
    ensures LegacySum(Nums(ns), Whole) == Ok(Num(IntSum(ns)))
    decreases |ns|
  {
    if |ns| > 0 {
      var init := ns[..|ns| - 1];
      LegacySumOfNumbers(init);
      var vs, last := Nums(ns), ns[|ns| - 1];
      assert vs[..|vs| - 1] == Nums(init);
      assert vs[|vs| - 1] == Num(last);
      assert FoldValues(vs, LegacySumStep(None), Ok(Num(0)))
          == LegacySumStep(None)(Ok(Num(IntSum(init))), Num(last));
      assert LegacySumStep(None)(Ok(Num(IntSum(init))), Num(last)) == Ok(JsPlus(Num(IntSum(init)), Num(last)));
      assert IntSum(ns) == IntSum(init) + last;
    }
  }

  /** `sum()` of [1, 2, 3] is 6. */
  lemma SumExample()
    ensures LegacySum(Nums([1, 2, 3]), Whole) == Ok(Num(6))
  {
    LegacySumOfNumbers([1, 2, 3]);
    assert [1, 2, 3][..2] == [1, 2] && [1, 2][..1] == [1] && [1][..0] == [];
    assert IntSum([1]) == 1;
    assert IntSum([1, 2]) == 3;
    assert IntSum([1, 2, 3]) == 6;
  }

  /** A book's `pages` field. */
  lemma PagesOf(name: string, n: int)
    ensures GetProp(Obj([("name", Str(name)), ("pages", Num(n))]), "pages") == Ok(Num(n))
  {
    var fs := [("name", Str(name)), ("pages", Num(n))];
    assert "name" != "pages" by {
      assert "name"[0] != "pages"[0];
    }
    assert UniqueKeys(fs);
    LookupOfMember(fs, 1);
  }

  /** `sum('pages')` of the two books is 176 + 1096 = 1272. */
  lemma SumFieldExample(a: string, b: string)
    ensures LegacySum([Obj([("name", Str(a)), ("pages", Num(176))]), Obj([("name", Str(b)), ("pages", Num(1096))])], FieldSum("pages"))
            == Ok(Num(1272))
  {
    var vs := [Obj([("name", Str(a)), ("pages", Num(176))]), Obj([("name", Str(b)), ("pages", Num(1096))])];
    assert vs[..1] == [vs[0]] && vs[..1][..0] == [];
    PagesOf(a, 176);
    PagesOf(b, 1096);
    var step := LegacySumStep(Some("pages"));
    assert FoldValues(vs[..1], step, Ok(Num(0))) == step(Ok(Num(0)), vs[0]) == Ok(Num(176));
    assert FoldValues(vs, step, Ok(Num(0))) == step(Ok(Num(176)), vs[1]) == Ok(Num(1272));
  }

  /** Unlike the base class's `sum`, the legacy one does not convert: a string
      value turns the sum into a concatenation. */
  lemma SumConcatenates()
    ensures LegacySum([Num(1), Str("2")], Whole) == Ok(Str("12"))
  {
    var vs := [Num(1), Str("2")];
    assert vs[..1] == [Num(1)] && vs[..1][..0] == [];
    var step := LegacySumStep(None);
    assert step(Ok(Num(0)), Num(1)) == Ok(JsPlus(Num(0), Num(1)));
    assert FoldValues(vs[..1], step, Ok(Num(0))) == step(Ok(Num(0)), Num(1)) == Ok(Num(1));
    assert NatToString(1) == "1";
    assert ToStr(Num(1)) == "1";
    assert step(Ok(Num(1)), Str("2")) == Ok(JsPlus(Num(1), Str("2")));
    assert JsPlus(Num(1), Str("2")) == Str("1" + "2");
    assert "1" + "2" == "12";
    assert FoldValues(vs, step, Ok(Num(0))) == step(Ok(Num(1)), Str("2")) == Ok(Str("12"));
  }
}
