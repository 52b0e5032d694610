/** The base-class operations that build a new collection by pushing into a fresh
    array or assigning into a fresh object while `each` walks the receiver:
    `chunkWhile`, `collapse`, `combine`, `keyBy` and `pluck`. */
module CollectionBuilders {
  import opened OrderedMaps
  import opened JsValues
  import opened Helpers
  import opened CollectionBase

  /** The elements of the chunks, in order. */
  function Flatten<T>(ss: seq<seq<T>>): seq<T>
    decreases |ss|
  {
    if |ss| == 0 then [] else Flatten(ss[..|ss| - 1]) + ss[|ss| - 1]
  }

  lemma FlattenSnoc<T>(ss: seq<seq<T>>, s: seq<T>)
    ensures Flatten(ss + [s]) == Flatten(ss) + s
  {
    assert (ss + [s])[..|ss|] == ss;
  }

  /** Each chunk as an array value. */
  function Arrs(ss: seq<seq<Value>>): (vs: seq<Value>)
    ensures |vs| == |ss| && forall i :: 0 <= i < |ss| ==> vs[i] == Arr(ss[i])
  {
    seq(|ss|, i requires 0 <= i < |ss| => Arr(ss[i]))
  }

  // ---------------------------------------------------------------------------
  // chunkWhile

  /** `callback(value, key, chunk)`, the chunk being the one built so far. */
  type ChunkCallback = (Value, string, seq<Value>) -> Outcome<Value>

  /** The value pushed onto the last chunk. */
  function ExtendLast(chunks: seq<seq<Value>>, v: Value): (r: seq<seq<Value>>)
    requires |chunks| > 0
    ensures |r| == |chunks| && r[..|r| - 1] == chunks[..|chunks| - 1] && r[|r| - 1] == chunks[|chunks| - 1] + [v]
    ensures Flatten(r) == Flatten(chunks) + [v]
  {
    var front, current := chunks[..|chunks| - 1], chunks[|chunks| - 1];
    assert chunks == front + [current];
    FlattenSnoc(front, current);
    FlattenSnoc(front, current + [v]);
    front + [current + [v]]
  }

  /** The value pushed as a chunk of its own. */
  function StartChunk(chunks: seq<seq<Value>>, v: Value): (r: seq<seq<Value>>)
    ensures r == chunks + [[v]]
    ensures Flatten(r) == Flatten(chunks) + [v]
  {
    FlattenSnoc(chunks, [v]);
    chunks + [[v]]
  }

  /** One step of `chunkWhile` on the chunks built so far: the value joins the last
      chunk when the callback accepts it and starts a new chunk otherwise. The
      first value has no chunk to join: the callback is shown an empty one, and
      accepting it throws, since `chunks[chunks.length - 1]` is undefined. */
  function ChunkStep(sofar: Outcome<seq<seq<Value>>>, e: (string, Value), cb: ChunkCallback): (r: Outcome<seq<seq<Value>>>)
    ensures r.Ok? ==> sofar.Ok? && Flatten(r.value) == Flatten(sofar.value) + [e.1] && |r.value| > 0
    ensures r.Ok? ==> forall j :: 0 <= j < |r.value| && (j < |sofar.value| ==> |sofar.value[j]| > 0) ==> |r.value[j]| > 0
  {
    match sofar
    case TypeError => TypeError
    case Ok(chunks) =>
      var current := if |chunks| > 0 then chunks[|chunks| - 1] else [];
      match cb(e.1, e.0, current)
      case TypeError => TypeError
      case Ok(x) =>
        if Truthy(x) then
          if |chunks| == 0 then TypeError
          else
            var r := ExtendLast(chunks, e.1);
            assert forall j :: 0 <= j < |r| - 1 ==> r[j] == r[..|r| - 1][j];
            Ok(r)
        else Ok(StartChunk(chunks, e.1))
  }

  /** `ChunkStep` on chunks built so far, case by case. */
  lemma ChunkStepCases(chunks: seq<seq<Value>>, e: (string, Value), cb: ChunkCallback)
    ensures var current := if |chunks| > 0 then chunks[|chunks| - 1] else [];
            var res := cb(e.1, e.0, current);
            && (res.TypeError? ==> ChunkStep(Ok(chunks), e, cb) == TypeError)
            && (res.Ok? && Truthy(res.value) && |chunks| == 0 ==> ChunkStep(Ok(chunks), e, cb) == TypeError)
            && (res.Ok? && Truthy(res.value) && |chunks| > 0 ==> ChunkStep(Ok(chunks), e, cb) == Ok(ExtendLast(chunks, e.1)))
            && (res.Ok? && !Truthy(res.value) ==> ChunkStep(Ok(chunks), e, cb) == Ok(StartChunk(chunks, e.1)))
  {
  }

  /** The chunks `chunkWhile` builds from the entries. Concatenated they give back
      the values in order, and no chunk is empty. */
  function ChunkWhileSpec(es: seq<(string, Value)>, cb: ChunkCallback): (r: Outcome<seq<seq<Value>>>)
    ensures r.Ok? ==> Flatten(r.value) == Vals(es)
    ensures r.Ok? ==> forall j :: 0 <= j < |r.value| ==> |r.value[j]| > 0
    ensures r.Ok? ==> (|r.value| == 0 <==> |es| == 0)
    decreases |es|
  {
    if |es| == 0 then Ok([])
    else
      var init, e := es[..|es| - 1], es[|es| - 1];
      assert Vals(es) == Vals(init) + [e.1];
      ChunkStep(ChunkWhileSpec(init, cb), e, cb)
  }

  lemma ChunkWhileSnoc(es: seq<(string, Value)>, e: (string, Value), cb: ChunkCallback)
    ensures ChunkWhileSpec(es + [e], cb) == ChunkStep(ChunkWhileSpec(es, cb), e, cb)
  {
    var all := es + [e];
    assert all[..|all| - 1] == es && all[|all| - 1] == e;
  }

  /** What `chunkWhile(callback)` returns: a sequence collection of the chunks. */
  function ChunkWhileResult(c: Coll, cb: ChunkCallback): Outcome<Coll>
  {
    match ChunkWhileSpec(Entries(c), cb)
    case TypeError => TypeError
    case Ok(chunks) => Ok(SeqColl(Arrs(chunks)))
  }

  /** The `each` callback of `chunkWhile`: extend the last chunk or push a new one. */
  method ChunkWhileVisit(chunks: seq<seq<Value>>, e: (string, Value), cb: ChunkCallback) returns (r: Outcome<seq<seq<Value>>>)
    ensures r == ChunkStep(Ok(chunks), e, cb)
  {
    ChunkStepCases(chunks, e, cb);
    var current := if |chunks| > 0 then chunks[|chunks| - 1] else [];
    var res := cb(e.1, e.0, current);
    if res.TypeError? {
      return TypeError;
    }
    if Truthy(res.value) {
      if |chunks| == 0 {
        return TypeError;
      }
      return Ok(ExtendLast(chunks, e.1));
    }
    return Ok(StartChunk(chunks, e.1));
  }

  /** `chunkWhile(callback)`: the `each` loop that extends the last chunk or pushes
      a new one. */
  method ChunkWhile(c: Coll, cb: ChunkCallback) returns (r: Outcome<Coll>)
    ensures r == ChunkWhileResult(c, cb)
  {
    var chunks := ChunkWhileLoop(Entries(c), cb);
    if chunks.TypeError? {
      return TypeError;
    }
    return Ok(SeqColl(Arrs(chunks.value)));
  }

  /** The loop of `chunkWhile` over the entries, giving the chunks. */
  method ChunkWhileLoop(es: seq<(string, Value)>, cb: ChunkCallback) returns (r: Outcome<seq<seq<Value>>>)
    ensures r == ChunkWhileSpec(es, cb)
  {
    var chunks: seq<seq<Value>> := [];
    for i := 0 to |es|
      invariant ChunkWhileSpec(es[..i], cb) == Ok(chunks)
    {
      ChunkWhileAdvance(es, i, cb);
      var next := ChunkWhileVisit(chunks, es[i], cb);
      if next.TypeError? {
        ChunkWhileThrowsOnPrefix(es, cb, i + 1);
        return TypeError;
      }
      chunks := next.value;
    }
    assert es[..|es|] == es;
    return Ok(chunks);
  }

  /** The chunks of one more entry, from those of a prefix. */
  lemma ChunkWhileAdvance(es: seq<(string, Value)>, i: nat, cb: ChunkCallback)
    requires i < |es|
    ensures ChunkWhileSpec(es[..i + 1], cb) == ChunkStep(ChunkWhileSpec(es[..i], cb), es[i], cb)
  {
    assert es[..i + 1] == es[..i] + [es[i]];
    ChunkWhileSnoc(es[..i], es[i], cb);
  }

  /** A new chunk starts exactly when the callback rejects the value for the chunk
      built so far; otherwise the value is appended to that chunk. */
  lemma ChunkWhileStep(es: seq<(string, Value)>, e: (string, Value), cb: ChunkCallback)
    requires ChunkWhileSpec(es + [e], cb).Ok?
    ensures ChunkWhileSpec(es, cb).Ok?
    ensures var chunks, after := ChunkWhileSpec(es, cb).value, ChunkWhileSpec(es + [e], cb).value;
            var current := if |chunks| > 0 then chunks[|chunks| - 1] else [];
            && cb(e.1, e.0, current).Ok?
            && (Truthy(cb(e.1, e.0, current).value) ==>
                  |chunks| > 0 && |after| == |chunks|
                  && after[..|after| - 1] == chunks[..|chunks| - 1]
                  && after[|after| - 1] == current + [e.1])
            && (!Truthy(cb(e.1, e.0, current).value) ==> after == chunks + [[e.1]])
  {
    ChunkWhileSnoc(es, e, cb);
  }

  /** A throw on a prefix ends the whole run. */
  lemma {:induction false} ChunkWhileThrowsOnPrefix(es: seq<(string, Value)>, cb: ChunkCallback, i: nat)
    requires i <= |es| && ChunkWhileSpec(es[..i], cb).TypeError?
    ensures ChunkWhileSpec(es, cb).TypeError?
    decreases |es|
  {
    if i < |es| {
      var init := es[..|es| - 1];
      assert init[..i] == es[..i];
      ChunkWhileThrowsOnPrefix(init, cb, i);
    } else {
      assert es[..i] == es;
    }
  }

  /** The first value can never join a chunk: a callback accepting it throws. */
  lemma ChunkWhileFirstAccepted(es: seq<(string, Value)>, cb: ChunkCallback)
    requires |es| > 0 && cb(es[0].1, es[0].0, []).Ok? && Truthy(cb(es[0].1, es[0].0, []).value)
    ensures ChunkWhileSpec(es, cb).TypeError?
  {
    assert es[..1] == [] + [es[0]];
    ChunkWhileSnoc([], es[0], cb);
    ChunkWhileThrowsOnPrefix(es, cb, 1);
  }

  // ---------------------------------------------------------------------------
  // collapse

  /** `xs.flat()`: arrays among the elements are spliced in, one level deep. */
  function Flat(xs: seq<Value>): seq<Value>
    decreases |xs|
  {
    if |xs| == 0 then []
    else
      var last := xs[|xs| - 1];
      Flat(xs[..|xs| - 1]) + (if last.Arr? then last.elems else [last])
  }

  /** `collapse()`: `this.all().flat()`. An object has no `flat` method, so on an
      object collection the call throws. */
  function Collapse(c: Coll): (r: Outcome<Coll>)
    ensures r.TypeError? <==> c.MapColl?
  {
    match c
    case SeqColl(xs) => Ok(SeqColl(Flat(xs)))
    case MapColl(_) => TypeError
  }

  /** Flattening arrays of chunks concatenates the chunks. */
  lemma {:induction false} FlatOfArrs(ss: seq<seq<Value>>)
    ensures Flat(Arrs(ss)) == Flatten(ss)
    decreases |ss|
  {
    if |ss| > 0 {
      FlatOfArrs(ss[..|ss| - 1]);
      assert Arrs(ss)[..|ss| - 1] == Arrs(ss[..|ss| - 1]);
    }
  }

  /** Without nested arrays there is nothing to flatten. */
  lemma {:induction false} FlatOfScalars(xs: seq<Value>)
    requires forall i :: 0 <= i < |xs| ==> !xs[i].Arr?
    ensures Flat(xs) == xs
    decreases |xs|
  {
    if |xs| > 0 {
      FlatOfScalars(xs[..|xs| - 1]);
      assert xs == xs[..|xs| - 1] + [xs[|xs| - 1]];
    }
  }

  /** Round trip: collapsing the chunks of `chunkWhile` gives back the values. */
  lemma ChunkWhileCollapse(c: Coll, cb: ChunkCallback)
    requires ChunkWhileResult(c, cb).Ok?
    ensures Collapse(ChunkWhileResult(c, cb).value) == Ok(ValuesOf(c))
  {
    FlatOfArrs(ChunkWhileSpec(Entries(c), cb).value);
  }

  // ---------------------------------------------------------------------------
  // combine

  /** The property name `items[parseInt(k)]` reads: the number's decimal form, or
      "NaN". */
  function IndexName(n: Option<int>): string
  {
    match n
    case Some(i) => IntToString(i)
    case None => "NaN"
  }

  /** `items[parseInt(k)]`, with `undefined` replaced by `null`. */
  function CombinedValue(items: Value, k: string): (r: Value)
    ensures !r.Undef?
  {
    match GetProp(items, IndexName(ParseInt(k)))
    case Ok(x) => if x.Undef? then Null else x
    case TypeError => Null
  }

  /** The assignments `newObject[v] = ...` in visiting order. */
  function CombinePairs(es: seq<(string, Value)>, items: Value): (ps: seq<(string, Value)>)
    ensures |ps| == |es|
    ensures forall i :: 0 <= i < |es| ==> ps[i] == (ToStr(es[i].1), CombinedValue(items, es[i].0))
  {
    seq(|es|, i requires 0 <= i < |es| => (ToStr(es[i].1), CombinedValue(items, es[i].0)))
  }

  /** What `combine(items)` returns: an object collection keyed by this
      collection's values. Reading an index of null or undefined throws. */
  function CombineSpec(c: Coll, items: Value): Outcome<Coll>
  {
    if Length(c) > 0 && IsNullish(items) then TypeError
    else Ok(MapColl(FromEntries(CombinePairs(Entries(c), items))))
  }

  /** `items[parseInt(k)]`, which throws on null and undefined, with `undefined`
      replaced by `null`. */
  method ReadCombined(items: Value, k: string) returns (r: Outcome<Value>)
    ensures r.TypeError? <==> IsNullish(items)
    ensures r.Ok? ==> r.value == CombinedValue(items, k)
  {
    var read := GetProp(items, IndexName(ParseInt(k)));
    if read.TypeError? {
      return TypeError;
    }
    return Ok(if read.value.Undef? then Null else read.value);
  }

  /** `combine(items)`: the `each` loop assigning into a fresh object. */
  method Combine(c: Coll, items: Value) returns (r: Outcome<Coll>)
    ensures r == CombineSpec(c, items)
  {
    var es := Entries(c);
    ghost var ps := CombinePairs(es, items);
    var newObject := [];
    for i := 0 to |es|
      invariant i > 0 ==> !IsNullish(items)
      invariant newObject == SetAll([], ps[..i])
    {
      var item := ReadCombined(items, es[i].0);
      if item.TypeError? {
        return TypeError;
      }
      SetAllPrefixStep([], ps, i);
      newObject := Set(newObject, ToStr(es[i].1), item.value);
    }
    assert ps[..|es|] == ps;
    return Ok(MapColl(newObject));
  }

  /** `items[parseInt("i")]` on an array is its element `i`. */
  lemma CombinedValueOfIndex(ys: seq<Value>, i: nat)
    ensures CombinedValue(Arr(ys), NatToString(i)) == if i < |ys| && ys[i] != Undef then ys[i] else Null
  {
    var k := NatToString(i);
    ParseIntOfIntToString(i);
    assert IntToString(i) == k;
    CombinedValueAt(Arr(ys), k, Some(i), k);
    GetPropOfIndex(ys, i);
  }

  /** `items[parseInt(k)]` once `parseInt(k)` is known by name. */
  lemma CombinedValueAt(items: Value, k: string, n: Option<int>, name: string)
    requires ParseInt(k) == n && IndexName(n) == name
    ensures CombinedValue(items, k) == match GetProp(items, name) case Ok(x) => (if x.Undef? then Null else x) case TypeError => Null
  {
  }

  /** On an array collection combined with an array: when the values have distinct
      string forms, the key of the value at index `i` holds `items[i]`, or `null`
      past the end of `items`. */
  lemma CombineArrays(xs: seq<Value>, ys: seq<Value>, i: nat)
    requires i < |xs|
    requires forall j, k :: 0 <= j < k < |xs| ==> ToStr(xs[j]) != ToStr(xs[k])
    ensures CombineSpec(SeqColl(xs), Arr(ys)).Ok?
    ensures Lookup(CombineSpec(SeqColl(xs), Arr(ys)).value.fields, ToStr(xs[i]))
         == Some(if i < |ys| && ys[i] != Undef then ys[i] else Null)
  {
    var es := Entries(SeqColl(xs));
    assert CombineSpec(SeqColl(xs), Arr(ys)) == Ok(MapColl(FromEntries(CombinePairs(es, Arr(ys)))));
    CombineAt(es, Arr(ys), xs, i);
    assert es[i].0 == NatToString(i);
    CombinedValueOfIndex(ys, i);
  }

  /** Over values with distinct string forms, the key of the value at index `i`
      holds the item read for that entry's key. */
  lemma CombineAt(es: seq<(string, Value)>, items: Value, xs: seq<Value>, i: nat)
    requires |es| == |xs| && i < |xs| && forall j :: 0 <= j < |es| ==> es[j].1 == xs[j]
    requires forall j, k :: 0 <= j < k < |xs| ==> ToStr(xs[j]) != ToStr(xs[k])
    ensures Lookup(FromEntries(CombinePairs(es, items)), ToStr(xs[i])) == Some(CombinedValue(items, es[i].0))
  {
    var ps := CombinePairs(es, items);
    assert UniqueKeys(ps);
    LastIndexOfUnique(ps, i);
    SetAllLookup([], ps, ToStr(xs[i]));
  }

  /** When two values have the same string form, the later one's item wins. */
  lemma CombineLaterWins(c: Coll, items: Value, k: string)
    requires CombineSpec(c, items).Ok?
    ensures var ps := CombinePairs(Entries(c), items);
            LastIndexOf(ps, k).Some? ==>
              Lookup(CombineSpec(c, items).value.fields, k) == Some(ps[LastIndexOf(ps, k).value].1)
    ensures var ps := CombinePairs(Entries(c), items);
            LastIndexOf(ps, k).None? ==> Lookup(CombineSpec(c, items).value.fields, k).None?
  {
    SetAllLookup([], CombinePairs(Entries(c), items), k);
  }

  // ---------------------------------------------------------------------------
  // keyBy

  /** The argument of `keyBy`: a field name, or a callback computing the key. */
  datatype KeyArg = ByField(name: string) | ByCallback(f: Callback)

  /** The key an entry is stored under, if any: the field's string form when the
      field is defined, or the callback's result when it is a string. */
  function EntryKey(key: KeyArg, e: (string, Value)): Outcome<Option<string>>
  {
    match key
    case ByField(name) =>
      (match GetProp(e.1, name)
       case TypeError => TypeError
       case Ok(x) => Ok(if x.Undef? then None else Some(ToStr(x))))
    case ByCallback(f) =>
      (match f(e.1, e.0)
       case TypeError => TypeError
       case Ok(x) => Ok(if x.Str? then Some(x.s) else None))
  }

  /** The assignments `newObject[key] = v` in visiting order. */
  function KeyPairs(es: seq<(string, Value)>, key: KeyArg): (r: Outcome<seq<(string, Value)>>)
    ensures r.Ok? <==> forall i :: 0 <= i < |es| ==> EntryKey(key, es[i]).Ok?
    decreases |es|
  {
    if |es| == 0 then Ok([])
    else
      var init, e := es[..|es| - 1], es[|es| - 1];
      assert forall i :: 0 <= i < |init| ==> init[i] == es[i];
      match KeyPairs(init, key)
      case TypeError => TypeError
      case Ok(ps) =>
        match EntryKey(key, e)
        case TypeError => TypeError
        case Ok(None) => Ok(ps)
        case Ok(Some(k)) => Ok(ps + [(k, e.1)])
  }

  /** What `keyBy(key)` returns: an object collection of the assignments. */
  function KeyBySpec(c: Coll, key: KeyArg): Outcome<Coll>
  {
    match KeyPairs(Entries(c), key)
    case TypeError => TypeError
    case Ok(ps) => Ok(MapColl(FromEntries(ps)))
  }

  /** `keyBy(key)`: the `each` loop assigning each keyed value into a fresh
      object. */
  method KeyBy(c: Coll, key: KeyArg) returns (r: Outcome<Coll>)
    ensures r == KeyBySpec(c, key)
  {
    var newObject := KeyByLoop(Entries(c), key);
    if newObject.TypeError? {
      return TypeError;
    }
    return Ok(MapColl(newObject.value));
  }

  /** The loop of `keyBy` over the entries, building the object in place. */
  method KeyByLoop(es: seq<(string, Value)>, key: KeyArg) returns (r: Outcome<seq<(string, Value)>>)
    ensures KeyPairs(es, key).TypeError? ==> r.TypeError?
    ensures KeyPairs(es, key).Ok? ==> r == Ok(FromEntries(KeyPairs(es, key).value))
  {
    var newObject := [];
    ghost var ps := [];
    for i := 0 to |es|
      invariant KeyPairs(es[..i], key) == Ok(ps)
      invariant newObject == SetAll([], ps)
    {
      KeyPairsAdvance(es, key, i);
      var k := EntryKey(key, es[i]);
      if k.TypeError? {
        return TypeError;
      }
      if k.value.Some? {
        SetAllSnoc([], ps, (k.value.value, es[i].1));
        newObject := Set(newObject, k.value.value, es[i].1);
        ps := ps + [(k.value.value, es[i].1)];
      }
    }
    assert es[..|es|] == es;
    return Ok(newObject);
  }

  /** The assignments of one more entry: a throw of its key throws, an undefined
      key adds nothing, and any other key adds one assignment. */
  lemma KeyPairsAdvance(es: seq<(string, Value)>, key: KeyArg, i: nat)
    requires i < |es|
    ensures KeyPairs(es[..i], key).Ok? && EntryKey(key, es[i]).TypeError? ==> KeyPairs(es, key).TypeError?
    ensures KeyPairs(es[..i], key).Ok? && EntryKey(key, es[i]) == Ok(None) ==>
              KeyPairs(es[..i + 1], key) == KeyPairs(es[..i], key)
    ensures KeyPairs(es[..i], key).Ok? && EntryKey(key, es[i]).Ok? && EntryKey(key, es[i]).value.Some? ==>
              KeyPairs(es[..i + 1], key) == Ok(KeyPairs(es[..i], key).value + [(EntryKey(key, es[i]).value.value, es[i].1)])
  {
    assert es[..i + 1][..i] == es[..i] && es[..i + 1][i] == es[i];
  }

  /** The index of the last entry stored under key `k`. */
  function LastKeyed(es: seq<(string, Value)>, key: KeyArg, k: string): (r: Option<nat>)
    ensures r.Some? ==> r.value < |es| && EntryKey(key, es[r.value]) == Ok(Some(k))
    ensures r.Some? ==> forall j :: r.value < j < |es| ==> EntryKey(key, es[j]) != Ok(Some(k))
    ensures r.None? ==> forall j :: 0 <= j < |es| ==> EntryKey(key, es[j]) != Ok(Some(k))
    decreases |es|
  {
    if |es| == 0 then None
    else if EntryKey(key, es[|es| - 1]) == Ok(Some(k)) then Some(|es| - 1)
    else
      var init := es[..|es| - 1];
      assert forall i :: 0 <= i < |init| ==> init[i] == es[i];
      LastKeyed(init, key, k)
  }

  /** A key of the result holds the value of the last entry stored under it, so a
      later entry overwrites an earlier one; a key no entry produces is absent,
      which drops the values whose field is undefined. */
  lemma {:induction false} KeyByLastWins(es: seq<(string, Value)>, key: KeyArg, k: string)
    requires KeyPairs(es, key).Ok?
    ensures Lookup(FromEntries(KeyPairs(es, key).value), k)
         == match LastKeyed(es, key, k)
            case Some(i) => Some(es[i].1)
            case None => None
    decreases |es|
  {
    if |es| > 0 {
      var init, e := es[..|es| - 1], es[|es| - 1];
      KeyByLastWins(init, key, k);
      var ps := KeyPairs(init, key).value;
      match EntryKey(key, e)
      case Ok(None) =>
      case Ok(Some(k')) =>
        assert (ps + [(k', e.1)])[..|ps|] == ps;
        SetLookup(FromEntries(ps), k', e.1, k);
    }
  }

  /** With a field name, every stored value has that field defined and is stored
      under the field's string form. */
  lemma KeyByFieldSound(c: Coll, name: string, k: string)
    requires KeyBySpec(c, ByField(name)).Ok?
    requires Lookup(KeyBySpec(c, ByField(name)).value.fields, k).Some?
    ensures var v := Lookup(KeyBySpec(c, ByField(name)).value.fields, k).value;
            GetProp(v, name).Ok? && !GetProp(v, name).value.Undef? && ToStr(GetProp(v, name).value) == k
  {
    KeyByLastWins(Entries(c), ByField(name), k);
  }

  // ---------------------------------------------------------------------------
  // pluck

  /** `collect(v)`: strings and arrays are iterable and give a sequence collection,
      other objects an object collection, other values a one-element collection;
      null and undefined throw. */
  function RecordOf(v: Value): (r: Outcome<Coll>)
    ensures r.TypeError? <==> IsNullish(v)
  {
    match v
    case Undef => TypeError
    case Null => TypeError
    case Arr(xs) => Ok(SeqColl(xs))
    case Str(s) => Ok(SeqColl(seq(|s|, i requires 0 <= i < |s| => Str([s[i]]))))
    case Obj(fs) => Ok(MapColl(fs))
    case _ => Ok(SeqColl([v]))
  }

  /** `collect(v).get(field)` without a default, which is `undefined`. */
  function FieldOf(v: Value, field: Value): Value
  {
    match RecordOf(v)
    case TypeError => Undef
    case Ok(record) =>
      match Get(record, field, Plain(Undef))
      case Ok(x) => x
      case TypeError => Undef
  }

  /** Reading `field` from a record, as a function of the record. */
  function FieldReader(field: Value): Value -> Value
  {
    v => FieldOf(v, field)
  }

  /** Reading `field` from a record as a property name. */
  function KeyReader(field: Value): Value -> string
  {
    v => ToStr(FieldOf(v, field))
  }

  /** Some value is null or undefined, so turning it into a collection throws. */
  predicate SomeNullish(es: seq<(string, Value)>)
  {
    exists i :: 0 <= i < |es| && IsNullish(es[i].1)
  }

  /** The records read by `value`, in visiting order. */
  function PluckValues(es: seq<(string, Value)>, value: Value -> Value): (vs: seq<Value>)
    ensures |vs| == |es|
    ensures forall i :: 0 <= i < |es| ==> vs[i] == value(es[i].1)
  {
    seq(|es|, i requires 0 <= i < |es| => value(es[i].1))
  }

  /** The assignments `result[name(record)] = value(record)` in visiting order. */
  function PluckPairs(es: seq<(string, Value)>, name: Value -> string, value: Value -> Value): (ps: seq<(string, Value)>)
    ensures |ps| == |es|
    ensures forall i :: 0 <= i < |es| ==> ps[i] == (name(es[i].1), value(es[i].1))
  {
    seq(|es|, i requires 0 <= i < |es| => (name(es[i].1), value(es[i].1)))
  }

  /** The collection `pluck` builds with the given readers: the list of values, or
      the object from names to values. */
  function Plucked(es: seq<(string, Value)>, name: Option<Value -> string>, value: Value -> Value): Outcome<Coll>
  {
    if SomeNullish(es) then TypeError
    else match name
      case None => Ok(SeqColl(PluckValues(es, value)))
      case Some(n) => Ok(MapColl(FromEntries(PluckPairs(es, n, value))))
  }

  /** What `pluck(valueField, keyField)` returns: without a key field, the list of
      the records' `valueField`; with one, an object from each record's
      `keyField` (as a property name) to its `valueField`. Every value is turned
      into a collection first, which throws on null and undefined. */
  function PluckSpec(c: Coll, valueField: Value, keyField: Value): Outcome<Coll>
  {
    Plucked(Entries(c), if keyField.Undef? then None else Some(KeyReader(keyField)), FieldReader(valueField))
  }

  /** `pluck(valueField, keyField)`: the `each` loop pushing into a fresh array or
      assigning into a fresh object. */
  method Pluck(c: Coll, valueField: Value, keyField: Value) returns (r: Outcome<Coll>)
    ensures r == PluckSpec(c, valueField, keyField)
  {
    r := PluckLoop(Entries(c), if keyField.Undef? then None else Some(KeyReader(keyField)), FieldReader(valueField));
  }

  /** The loop of `pluck`, with the property reads given as functions. */
  method PluckLoop(es: seq<(string, Value)>, name: Option<Value -> string>, value: Value -> Value) returns (r: Outcome<Coll>)
    ensures r == Plucked(es, name, value)
  {
    var list: seq<Value> := [];
    var keyed: seq<(string, Value)> := [];
    ghost var vs := PluckValues(es, value);
    ghost var ps := if name.Some? then PluckPairs(es, name.value, value) else [];
    for i := 0 to |es|
      invariant !SomeNullish(es[..i])
      invariant name.None? ==> list == vs[..i]
      invariant name.Some? ==> keyed == SetAll([], ps[..i])
    {
      if IsNullish(es[i].1) {
        assert es[i] == es[..i + 1][i];
        return TypeError;
      }
      assert !SomeNullish(es[..i + 1]) by {
        assert forall j :: 0 <= j < i ==> es[..i + 1][j] == es[..i][j];
      }
      if name.None? {
        assert vs[..i + 1] == vs[..i] + [value(es[i].1)];
        list := list + [value(es[i].1)];
      } else {
        SetAllPrefixStep([], ps, i);
        keyed := Set(keyed, name.value(es[i].1), value(es[i].1));
      }
    }
    assert es[..|es|] == es;
    if name.None? {
      assert vs[..|es|] == vs;
      return Ok(SeqColl(list));
    }
    assert ps[..|es|] == ps;
    return Ok(MapColl(keyed));
  }

  /** Plucking a field from keyed records gives each record's property, or
      `undefined` where it has none. */
  lemma PluckFromObjects(c: Coll, name: string, i: nat)
    requires i < Length(c)
    requires forall j :: 0 <= j < Length(c) ==> Entries(c)[j].1.Obj? && UniqueKeys(Entries(c)[j].1.fields)
    ensures PluckSpec(c, Str(name), Undef).Ok?
    ensures PluckSpec(c, Str(name), Undef).value.items[i]
         == match Lookup(Entries(c)[i].1.fields, name) case Some(v) => v case None => Undef
  {
    var es := Entries(c);
    assert !SomeNullish(es);
    FieldOfObject(es[i].1.fields, name);
  }

  /** The field of an object record is its property, or `undefined` when it has none. */
  lemma FieldOfObject(fs: seq<(string, Value)>, name: string)
    requires UniqueKeys(fs)
    ensures FieldOf(Obj(fs), Str(name)) == match Lookup(fs, name) case Some(v) => v case None => Undef
  {
    GetOfMapKey(fs, name, Plain(Undef));
    assert RecordOf(Obj(fs)) == Ok(MapColl(fs));
    if Lookup(fs, name).None? {
      assert ValueOf(Plain(Undef)) == Ok(Undef);
    }
  }
}
