/** The shared base class of the two collection variants: the operations written
    once in terms of `all()` and `entries()`. A receiver is represented by what its
    `all()` returns, an array for an ArrayCollection and an object for an
    ObjectCollection; a collection the operations return is represented the same
    way. */
module CollectionBase {
  import opened OrderedMaps
  import opened JsValues
  import opened Helpers

  /** `all()` of a collection: the items of an ArrayCollection, or the own
      properties of the object behind an ObjectCollection. */
  datatype Coll = SeqColl(items: seq<Value>) | MapColl(fields: seq<(string, Value)>)

  /** `entries()`, i.e. `Object.entries(this.all())`: index names and elements for an
      array, the properties in order for an object. */
  function Entries(c: Coll): (es: seq<(string, Value)>)
    ensures c.SeqColl? ==> |es| == |c.items| && forall i :: 0 <= i < |es| ==> es[i] == (NatToString(i), c.items[i])
    ensures c.MapColl? ==> es == c.fields
  {
    match c
    case SeqColl(xs) => ArrayEntries(xs)
    case MapColl(fs) => fs
  }

  /** The `length` getter, which calls the variant's `count()`: the number of items
      of an array, the number of own keys of an object. */
  function Length(c: Coll): (n: nat)
    ensures n == |Entries(c)|
  {
    match c
    case SeqColl(xs) => |xs|
    case MapColl(fs) => |fs|
  }

  /** `keys()`: a sequence collection of the entry keys. */
  function KeysOf(c: Coll): (r: Coll)
    ensures r.SeqColl? && |r.items| == Length(c)
    ensures forall i :: 0 <= i < |r.items| ==> r.items[i] == Str(Entries(c)[i].0)
  {
    var es := Entries(c);
    SeqColl(seq(|es|, i requires 0 <= i < |es| => Str(es[i].0)))
  }

  /** `values()`: a sequence collection of the entry values. */
  function ValuesOf(c: Coll): (r: Coll)
    ensures r.SeqColl? && r.items == Vals(Entries(c))
  {
    SeqColl(EntriesToArray(Entries(c)))
  }

  /** Round trip: the values of an array collection are its items. */
  lemma ValuesOfSeqColl(xs: seq<Value>)
    ensures ValuesOf(SeqColl(xs)) == SeqColl(xs)
  {
    EntriesToArrayOfArrayEntries(xs);
  }

  // ---------------------------------------------------------------------------
  // each

  /** The callback returned normally and not exactly `false`, so `each` goes on. */
  predicate Continues(cb: Callback, e: (string, Value))
  {
    cb(e.1, e.0).Ok? && cb(e.1, e.0).value != Bool(false)
  }

  /** `each(callback)`: calls `callback(value, key)` on the entries in order and
      stops right after the first call that returns exactly `false`. The result is
      the number of entries visited, or the TypeError a call threw. */
  method Each(c: Coll, cb: Callback) returns (r: Outcome<nat>)
    ensures r.Ok? ==> r.value <= Length(c)
    ensures r.Ok? ==> forall i :: 0 <= i < r.value ==> cb(Entries(c)[i].1, Entries(c)[i].0).Ok?
    ensures r.Ok? ==> forall i :: 0 <= i < r.value - 1 ==> Continues(cb, Entries(c)[i])
    ensures r.Ok? && r.value < Length(c) ==>
              r.value > 0 && cb(Entries(c)[r.value - 1].1, Entries(c)[r.value - 1].0) == Ok(Bool(false))
    ensures r.TypeError? ==>
              exists j :: 0 <= j < Length(c) && cb(Entries(c)[j].1, Entries(c)[j].0).TypeError?
                       && forall i :: 0 <= i < j ==> Continues(cb, Entries(c)[i])
  {
    var es := Entries(c);
    var i := 0;
    while i < |es|
      invariant 0 <= i <= |es|
      invariant forall j :: 0 <= j < i ==> Continues(cb, es[j])
    {
      var res := cb(es[i].1, es[i].0);
      if res.TypeError? {
        return TypeError;
      }
      if res.value == Bool(false) {
        return Ok(i + 1);
      }
      i := i + 1;
    }
    return Ok(|es|);
  }

  // ---------------------------------------------------------------------------
  // filter

  /** `s` is `t` with some elements left out, the rest in order. */
  predicate IsSubsequence<T(==)>(s: seq<T>, t: seq<T>)
    decreases |t|
  {
    if |s| == 0 then true
    else if |t| == 0 then false
    else (s[|s| - 1] == t[|t| - 1] && IsSubsequence(s[..|s| - 1], t[..|t| - 1]))
         || IsSubsequence(s, t[..|t| - 1])
  }

  /** `filter`'s default callback, `Boolean`. */
  function FilterCallback(cb: Option<Callback>): (f: Callback)
    ensures cb.Some? ==> f == cb.value
    ensures cb.None? ==> forall v, k :: f(v, k) == Ok(Bool(Truthy(v)))
  {
    match cb
    case Some(g) => g
    case None => (v, k) => Ok(Bool(Truthy(v)))
  }

  /** The values `filter` pushes: those whose callback result is truthy, in order;
      a throwing callback makes the whole call throw. */
  function Select(es: seq<(string, Value)>, cb: Callback): (r: Outcome<seq<Value>>)
    ensures r.Ok? <==> forall i :: 0 <= i < |es| ==> cb(es[i].1, es[i].0).Ok?
    ensures r.Ok? ==> forall i :: 0 <= i < |es| && Truthy(cb(es[i].1, es[i].0).value) ==> es[i].1 in r.value
    ensures r.Ok? ==> forall x :: x in r.value ==>
              exists i :: 0 <= i < |es| && es[i].1 == x && Truthy(cb(es[i].1, es[i].0).value)
    decreases |es|
  {
    if |es| == 0 then Ok([])
    else
      var init, e := es[..|es| - 1], es[|es| - 1];
      assert forall i :: 0 <= i < |init| ==> init[i] == es[i];
      match Select(init, cb)
      case TypeError => TypeError
      case Ok(kept) =>
        match cb(e.1, e.0)
        case TypeError => TypeError
        case Ok(x) => Ok(if Truthy(x) then kept + [e.1] else kept)
  }

  /** The kept values are a subsequence of the values. */
  lemma {:induction false} SelectSubsequence(es: seq<(string, Value)>, cb: Callback)
    ensures Select(es, cb).Ok? ==> IsSubsequence(Select(es, cb).value, Vals(es))
    decreases |es|
  {
    if |es| > 0 && Select(es, cb).Ok? {
      var init, e := es[..|es| - 1], es[|es| - 1];
      SelectSubsequence(init, cb);
      var kept := Select(init, cb).value;
      var vs := Vals(es);
      assert vs[..|vs| - 1] == Vals(init);
      if Truthy(cb(e.1, e.0).value) {
        var s := kept + [e.1];
        assert s[..|s| - 1] == kept;
      } else {
        assert IsSubsequence(kept, vs[..|vs| - 1]);
      }
    }
  }

  /** What `filter(callback)` returns: a sequence collection of the kept values,
      re-indexed from zero. */
  function FilterSpec(c: Coll, cb: Option<Callback>): Outcome<Coll>
  {
    match Select(Entries(c), FilterCallback(cb))
    case TypeError => TypeError
    case Ok(kept) => Ok(SeqColl(kept))
  }

  /** `filter(callback)`: the loop that pushes each value whose callback result is
      truthy. */
  method Filter(c: Coll, cb: Option<Callback>) returns (r: Outcome<Coll>)
    ensures r == FilterSpec(c, cb)
  {
    var kept := FilterLoop(Entries(c), FilterCallback(cb));
    if kept.TypeError? {
      return TypeError;
    }
    return Ok(SeqColl(kept.value));
  }

  /** The loop of `filter` over the entries. */
  method FilterLoop(es: seq<(string, Value)>, f: Callback) returns (r: Outcome<seq<Value>>)
    ensures r == Select(es, f)
  {
    var result := [];
    for i := 0 to |es|
      invariant Select(es[..i], f) == Ok(result)
    {
      SelectAdvance(es, f, i);
      var res := f(es[i].1, es[i].0);
      if res.TypeError? {
        return TypeError;
      }
      if Truthy(res.value) {
        result := result + [es[i].1];
      }
    }
    assert es[..|es|] == es;
    return Ok(result);
  }

  /** One more entry: a throw of its callback throws, a truthy result keeps its
      value, and any other result keeps nothing. */
  lemma SelectAdvance(es: seq<(string, Value)>, f: Callback, i: nat)
    requires i < |es|
    ensures f(es[i].1, es[i].0).TypeError? ==> Select(es, f).TypeError?
    ensures Select(es[..i], f).Ok? && f(es[i].1, es[i].0).Ok? ==>
              Select(es[..i + 1], f) ==
                Ok(if Truthy(f(es[i].1, es[i].0).value) then Select(es[..i], f).value + [es[i].1] else Select(es[..i], f).value)
  {
    assert es[..i + 1][..i] == es[..i] && es[..i + 1][i] == es[i];
  }

  /** Without a callback, `filter()` keeps exactly the truthy values, in order. */
  lemma FilterDefault(c: Coll)
    ensures FilterSpec(c, None).Ok?
    ensures forall x :: x in FilterSpec(c, None).value.items <==> x in Vals(Entries(c)) && Truthy(x)
    ensures IsSubsequence(FilterSpec(c, None).value.items, Vals(Entries(c)))
  {
    var es, f := Entries(c), FilterCallback(None);
    SelectSubsequence(es, f);
    var kept := Select(es, f).value;
    forall x ensures x in kept <==> x in Vals(es) && Truthy(x) {
      if x in Vals(es) && Truthy(x) {
        var i :| 0 <= i < |es| && Vals(es)[i] == x;
        assert Truthy(f(es[i].1, es[i].0).value);
      }
      if x in kept {
        var i :| 0 <= i < |es| && es[i].1 == x && Truthy(f(es[i].1, es[i].0).value);
        assert Vals(es)[i] == x;
      }
    }
  }

  /** A callback and its negation split the values between them. */
  lemma {:induction false} SelectPartition(es: seq<(string, Value)>, cb: Callback)
    requires Select(es, cb).Ok?
    ensures Select(es, Negate(cb)).Ok?
    ensures multiset(Select(es, cb).value) + multiset(Select(es, Negate(cb)).value) == multiset(Vals(es))
    decreases |es|
  {
    if |es| > 0 {
      var init, e := es[..|es| - 1], es[|es| - 1];
      assert Select(init, cb).Ok?;
      SelectPartition(init, cb);
      ValsInit(es);
      var a, b := Select(init, cb).value, Select(init, Negate(cb)).value;
      var hit := Truthy(cb(e.1, e.0).value);
      assert Negate(cb)(e.1, e.0) == Ok(Bool(!hit));
      if hit {
        assert Select(es, cb) == Ok(a + [e.1]);
        assert Select(es, Negate(cb)) == Ok(b);
      } else {
        assert Select(es, cb) == Ok(a);
        assert Select(es, Negate(cb)) == Ok(b + [e.1]);
      }
    }
  }

  lemma ValsInit<V>(es: seq<(string, V)>)
    requires |es| > 0
    ensures Vals(es) == Vals(es[..|es| - 1]) + [es[|es| - 1].1]
  {
  }

  /** The callback ignores the key it is passed. */
  ghost predicate KeyIndependent(cb: Callback)
  {
    forall v, k1, k2 :: cb(v, k1) == cb(v, k2)
  }

  /** Filtering again with a callback that ignores keys keeps everything, though the
      second pass sees the re-indexed keys. (A callback that reads the key can keep
      different values the second time.) */
  lemma {:induction false} SelectAgain(es: seq<(string, Value)>, cb: Callback)
    requires KeyIndependent(cb) && Select(es, cb).Ok?
    ensures Select(ArrayEntries(Select(es, cb).value), cb) == Select(es, cb)
    decreases |es|
  {
    if |es| > 0 {
      var init, e := es[..|es| - 1], es[|es| - 1];
      assert Select(init, cb).Ok?;
      SelectAgain(init, cb);
      var kept := Select(init, cb).value;
      if Truthy(cb(e.1, e.0).value) {
        assert Select(es, cb) == Ok(kept + [e.1]);
        SelectAgainStep(kept, e.1, e.0, cb);
      } else {
        assert Select(es, cb) == Ok(kept);
      }
    }
  }

  /** Filtering the re-indexed kept values plus one more accepted value. */
  lemma SelectAgainStep(kept: seq<Value>, v: Value, k: string, cb: Callback)
    requires KeyIndependent(cb) && Select(ArrayEntries(kept), cb) == Ok(kept)
    requires cb(v, k).Ok? && Truthy(cb(v, k).value)
    ensures Select(ArrayEntries(kept + [v]), cb) == Ok(kept + [v])
  {
    var ae := ArrayEntries(kept + [v]);
    assert ae[..|ae| - 1] == ArrayEntries(kept);
    assert ae[|ae| - 1] == (NatToString(|kept|), v);
    assert cb(v, NatToString(|kept|)) == cb(v, k);
  }

  /** filter is idempotent for callbacks that ignore the key. */
  lemma FilterIdempotent(c: Coll, cb: Callback)
    requires KeyIndependent(cb) && FilterSpec(c, Some(cb)).Ok?
    ensures FilterSpec(FilterSpec(c, Some(cb)).value, Some(cb)) == FilterSpec(c, Some(cb))
  {
    SelectAgain(Entries(c), cb);
  }

  // ---------------------------------------------------------------------------
  // first, last, contains

  /** The callback returned a truthy value. */
  predicate Hit(cb: Callback, e: (string, Value))
  {
    cb(e.1, e.0).Ok? && Truthy(cb(e.1, e.0).value)
  }

  /** The callback returned a falsy value. */
  predicate Miss(cb: Callback, e: (string, Value))
  {
    cb(e.1, e.0).Ok? && !Truthy(cb(e.1, e.0).value)
  }

  /** The index of the first entry the callback accepts, scanning forwards; a
      throwing call ends the scan. */
  function FirstMatch(es: seq<(string, Value)>, cb: Callback): (r: Outcome<Option<nat>>)
    ensures r.Ok? && r.value.Some? ==>
              r.value.value < |es| && Hit(cb, es[r.value.value])
              && forall j :: 0 <= j < r.value.value ==> Miss(cb, es[j])
    ensures r.Ok? && r.value.None? ==> forall j :: 0 <= j < |es| ==> Miss(cb, es[j])
    ensures r.TypeError? ==>
              exists j :: 0 <= j < |es| && cb(es[j].1, es[j].0).TypeError?
                       && forall i :: 0 <= i < j ==> Miss(cb, es[i])
    decreases |es|
  {
    if |es| == 0 then Ok(None)
    else
      match cb(es[0].1, es[0].0)
      case TypeError => TypeError
      case Ok(x) =>
        if Truthy(x) then Ok(Some(0))
        else
          var rest := es[1..];
          assert forall i :: 0 <= i < |rest| ==> rest[i] == es[i + 1];
          match FirstMatch(rest, cb)
          case TypeError =>
            var j :| 0 <= j < |rest| && cb(rest[j].1, rest[j].0).TypeError? && forall i :: 0 <= i < j ==> Miss(cb, rest[i]);
            assert cb(es[j + 1].1, es[j + 1].0).TypeError?;
            TypeError
          case Ok(None) => Ok(None)
          case Ok(Some(i)) => Ok(Some(i + 1))
  }

  /** The index of the last entry the callback accepts, scanning backwards. */
  function LastMatch(es: seq<(string, Value)>, cb: Callback): (r: Outcome<Option<nat>>)
    ensures r.Ok? && r.value.Some? ==>
              r.value.value < |es| && Hit(cb, es[r.value.value])
              && forall j :: r.value.value < j < |es| ==> Miss(cb, es[j])
    ensures r.Ok? && r.value.None? ==> forall j :: 0 <= j < |es| ==> Miss(cb, es[j])
    ensures r.TypeError? ==>
              exists j :: 0 <= j < |es| && cb(es[j].1, es[j].0).TypeError?
                       && forall i :: j < i < |es| ==> Miss(cb, es[i])
    decreases |es|
  {
    if |es| == 0 then Ok(None)
    else
      var init, e := es[..|es| - 1], es[|es| - 1];
      match cb(e.1, e.0)
      case TypeError => TypeError
      case Ok(x) =>
        if Truthy(x) then Ok(Some(|es| - 1))
        else
          assert forall i :: 0 <= i < |init| ==> init[i] == es[i];
          LastMatch(init, cb)
  }

  /** The forward scan from entry `i`: a throw there ends it, a hit there is the
      match, and a miss moves on to `i + 1`. */
  lemma FirstMatchStep(es: seq<(string, Value)>, f: Callback, i: nat)
    requires i < |es|
    ensures f(es[i].1, es[i].0).TypeError? ==> FirstMatch(es[i..], f) == TypeError
    ensures Hit(f, es[i]) ==> FirstMatch(es[i..], f) == Ok(Some(0))
    ensures Miss(f, es[i]) ==> FirstMatch(es[i..], f) == ShiftMatch(FirstMatch(es[i + 1..], f), 1)
  {
    assert es[i..][0] == es[i] && es[i..][1..] == es[i + 1..];
  }

  lemma ShiftTwice(m: Outcome<Option<nat>>, i: nat)
    ensures ShiftMatch(ShiftMatch(m, 1), i) == ShiftMatch(m, i + 1)
  {
  }

  /** A match found in a suffix, as an index of the whole sequence. */
  function ShiftMatch(m: Outcome<Option<nat>>, d: nat): Outcome<Option<nat>>
  {
    match m
    case Ok(Some(j)) => Ok(Some(j + d))
    case _ => m
  }

  /** The value at the matched index, or `null` when nothing matched. */
  function Found(es: seq<(string, Value)>, m: Outcome<Option<nat>>): Outcome<Value>
  {
    match m
    case TypeError => TypeError
    case Ok(None) => Ok(Null)
    case Ok(Some(i)) => if i < |es| then Ok(es[i].1) else Ok(Null)
  }

  /** `first(callback)`: without a callback the first value, or `null` when empty;
      with one the value of the first entry it accepts, or `null`. The scan stops at
      the first match. */
  method First(c: Coll, cb: Option<Callback>) returns (r: Outcome<Value>)
    ensures cb.None? ==> r == Ok(if Length(c) > 0 then Entries(c)[0].1 else Null)
    ensures cb.Some? ==> r == Found(Entries(c), FirstMatch(Entries(c), cb.value))
  {
    var es := Entries(c);
    if cb.None? {
      if |es| > 0 {
        return Ok(es[0].1);
      }
      return Ok(Null);
    }
    var m := FirstScan(es, cb.value);
    r := Found(es, m);
  }

  /** The `each` loop that stops at the first entry the callback accepts, giving
      its index; a throw ends the loop. */
  method FirstScan(es: seq<(string, Value)>, f: Callback) returns (m: Outcome<Option<nat>>)
    ensures m == FirstMatch(es, f)
  {
    var i := 0;
    while i < |es|
      invariant 0 <= i <= |es|
      invariant FirstMatch(es, f) == ShiftMatch(FirstMatch(es[i..], f), i)
    {
      FirstMatchStep(es, f, i);
      ShiftTwice(FirstMatch(es[i + 1..], f), i);
      var res := f(es[i].1, es[i].0);
      if res.TypeError? {
        return TypeError;
      }
      if Truthy(res.value) {
        return Ok(Some(i));
      }
      i := i + 1;
    }
    assert es[|es|..] == [];
    return Ok(None);
  }

  /** `last(callback)`: without a callback the last value, or `null` when empty;
      with one the value of the last entry it accepts, scanning from the end, or
      `null`. */
  method Last(c: Coll, cb: Option<Callback>) returns (r: Outcome<Value>)
    ensures cb.None? ==> r == Ok(if Length(c) > 0 then Entries(c)[Length(c) - 1].1 else Null)
    ensures cb.Some? ==> r == Found(Entries(c), LastMatch(Entries(c), cb.value))
  {
    var es := Entries(c);
    if cb.None? {
      if |es| > 0 {
        return Ok(es[|es| - 1].1);
      }
      return Ok(Null);
    }
    var m := LastScan(es, cb.value);
    r := Found(es, m);
  }

  /** The loop of `last(callback)`, from the last entry down to the first, giving
      the index of the first entry it accepts; a throw ends the loop. */
  method LastScan(es: seq<(string, Value)>, f: Callback) returns (m: Outcome<Option<nat>>)
    ensures m == LastMatch(es, f)
  {
    var i := |es|;
    assert es[..i] == es;
    while i > 0
      invariant 0 <= i <= |es|
      invariant LastMatch(es, f) == LastMatch(es[..i], f)
    {
      LastMatchPrefix(es, f, i);
      var res := f(es[i - 1].1, es[i - 1].0);
      if res.TypeError? {
        return TypeError;
      }
      if Truthy(res.value) {
        return Ok(Some(i - 1));
      }
      i := i - 1;
    }
    assert es[..0] == [];
    return Ok(None);
  }

  /** One step of the backward scan over the first `i` entries. */
  lemma LastMatchPrefix(es: seq<(string, Value)>, f: Callback, i: nat)
    requires 0 < i <= |es|
    ensures f(es[i - 1].1, es[i - 1].0).TypeError? ==> LastMatch(es[..i], f).TypeError?
    ensures Hit(f, es[i - 1]) ==> LastMatch(es[..i], f) == Ok(Some(i - 1))
    ensures Miss(f, es[i - 1]) ==> LastMatch(es[..i], f) == LastMatch(es[..i - 1], f)
  {
    assert es[..i][i - 1] == es[i - 1] && es[..i][..i - 1] == es[..i - 1];
  }

  /** What `contains` is given: a value to look for, or a callback. */
  datatype Needle = Val(v: Value) | Pred(cb: Callback)

  /** `contains(valueOrCallback)`: a callback is run through `each` until it
      accepts an entry; a value is looked for among the values with
      `Array.prototype.includes`. */
  method Contains(c: Coll, needle: Needle) returns (r: Outcome<bool>)
    ensures needle.Val? ==>
              r == Ok(exists i :: 0 <= i < Length(c) && SameValueZero(Entries(c)[i].1, needle.v))
    ensures needle.Pred? ==>
              match FirstMatch(Entries(c), needle.cb)
              case TypeError => r.TypeError?
              case Ok(m) => r == Ok(m.Some?)
  {
    var es := Entries(c);
    if needle.Val? {
      var vs := Vals(es);
      assert needle.v in vs <==> exists i :: 0 <= i < |es| && SameValueZero(es[i].1, needle.v);
      return Ok(needle.v in vs);
    }
    var m := FirstScan(es, needle.cb);
    if m.TypeError? {
      return TypeError;
    }
    return Ok(m.value.Some?);
  }

  // ---------------------------------------------------------------------------
  // get

  /** The index of the first entry whose key is loosely equal (`==`) to `key`. */
  function KeyMatch(es: seq<(string, Value)>, key: Value): (r: Option<nat>)
    ensures r.Some? ==>
              r.value < |es| && LooseEq(Str(es[r.value].0), key)
              && forall j :: 0 <= j < r.value ==> !LooseEq(Str(es[j].0), key)
    ensures r.None? ==> forall j :: 0 <= j < |es| ==> !LooseEq(Str(es[j].0), key)
    decreases |es|
  {
    if |es| == 0 then None
    else if LooseEq(Str(es[0].0), key) then Some(0)
    else
      var rest := es[1..];
      match KeyMatch(rest, key)
      case None =>
        assert forall j :: 1 <= j < |es| ==> es[j] == rest[j - 1];
        None
      case Some(i) =>
        assert forall j :: 1 <= j <= i + 1 ==> es[j] == rest[j - 1];
        Some(i + 1)
  }

  /** `get(key, defaultValue)`: the value of the first entry whose key `== key`,
      otherwise `valueOf(defaultValue)`. */
  function Get(c: Coll, key: Value, default: Lazy): Outcome<Value>
  {
    var es := Entries(c);
    match KeyMatch(es, key)
    case Some(i) => Ok(es[i].1)
    case None => ValueOf(default)
  }

  /** The first matching key is found. */
  lemma KeyMatchAt(es: seq<(string, Value)>, key: Value, i: nat)
    requires i < |es| && LooseEq(Str(es[i].0), key)
    requires forall j :: 0 <= j < i ==> !LooseEq(Str(es[j].0), key)
    ensures KeyMatch(es, key) == Some(i)
  {
  }

  /** Two strings are loosely equal exactly when they are the same. */
  lemma LooseEqStrings(a: string, b: string)
    ensures LooseEq(Str(a), Str(b)) <==> a == b
  {
  }

  /** On an object collection a string key finds its property, and a missing key
      gives the default. */
  lemma GetOfMapKey(fs: seq<(string, Value)>, k: string, default: Lazy)
    requires UniqueKeys(fs)
    ensures Lookup(fs, k).Some? ==> Get(MapColl(fs), Str(k), default) == Ok(Lookup(fs, k).value)
    ensures Lookup(fs, k).None? ==> Get(MapColl(fs), Str(k), default) == ValueOf(default)
  {
    forall j | 0 <= j < |fs| ensures LooseEq(Str(fs[j].0), Str(k)) <==> fs[j].0 == k {
      LooseEqStrings(fs[j].0, k);
    }
    if Lookup(fs, k).Some? {
      var i := LookupFound(fs, k);
      forall j | 0 <= j < i ensures fs[j].0 != k {
      }
      KeyMatchAt(fs, Str(k), i);
    } else {
      assert forall j :: 0 <= j < |fs| ==> Keys(fs)[j] == fs[j].0;
    }
  }

  /** A string is loosely equal to a number when it converts to that number. */
  lemma LooseEqStrNum(s: string, n: int)
    ensures LooseEq(Str(s), Num(n)) <==> StringToNumber(s) == Some(n)
  {
    assert TypeOf(Str(s)) != TypeOf(Num(n));
    assert !IsNullish(Str(s));
    assert !IsNullish(Num(n));
    assert ToNumeric(Str(s)) == StringToNumber(s);
    assert ToNumeric(Num(n)) == Some(n);
    LooseEqByNumber(Str(s), Num(n), StringToNumber(s), Some(n));
  }

  /** Loose equality between a string or object and a number compares numbers. */
  lemma LooseEqByNumber(a: Value, b: Value, na: Option<int>, nb: Option<int>)
    requires TypeOf(a) != TypeOf(b) && !IsNullish(a) && !IsNullish(b) && b.Num?
    requires ToNumeric(a) == na && ToNumeric(b) == nb
    ensures LooseEq(a, b) <==> na.Some? && na == nb
  {
  }

  /** An index name is loosely equal to the number it names and to no other. */
  lemma LooseEqIndexName(j: nat, i: nat)
    ensures LooseEq(Str(NatToString(j)), Num(i)) <==> j == i
  {
    LooseEqStrNum(NatToString(j), i);
    StringToNumberOfIntToString(j);
  }

  /** On an array collection, the number `i` and the string `"i"` both find the
      element at index `i`, because the loose equality converts the index name. */
  lemma GetOfIndex(xs: seq<Value>, i: nat, default: Lazy)
    requires i < |xs|
    ensures Get(SeqColl(xs), Num(i), default) == Ok(xs[i])
    ensures Get(SeqColl(xs), Str(NatToString(i)), default) == Ok(xs[i])
  {
    var es := ArrayEntries(xs);
    forall j | 0 <= j < i ensures !LooseEq(Str(es[j].0), Num(i)) {
      LooseEqIndexName(j, i);
    }
    LooseEqIndexName(i, i);
    KeyMatchAt(es, Num(i), i);
    forall j | 0 <= j < i ensures !LooseEq(Str(es[j].0), Str(NatToString(i))) {
      LooseEqStrings(NatToString(j), NatToString(i));
      NatToStringInjective(i, j);
    }
    KeyMatchAt(es, Str(NatToString(i)), i);
  }

  /** When no key matches, the default is returned through `valueOf`, which calls a
      function default. */
  lemma GetMissing(c: Coll, key: Value, default: Lazy)
    requires forall j :: 0 <= j < Length(c) ==> !LooseEq(Str(Entries(c)[j].0), key)
    ensures Get(c, key, default) == ValueOf(default)
    ensures default.Thunk? ==> Get(c, key, default) == Ok(default.f())
  {
  }

  // ---------------------------------------------------------------------------
  // reduce and sum

  /** The left fold `reduce` computes: `callback(...callback(callback(initial, v0,
      k0), v1, k1)..., vn, kn)`. */
  function Fold<A>(es: seq<(string, Value)>, cb: (A, Value, string) -> A, init: A): A
    decreases |es|
  {
    if |es| == 0 then init
    else cb(Fold(es[..|es| - 1], cb, init), es[|es| - 1].1, es[|es| - 1].0)
  }

  /** Folding a concatenation folds the second part from where the first ended. */
  lemma {:induction false} FoldAppend<A>(es1: seq<(string, Value)>, es2: seq<(string, Value)>, cb: (A, Value, string) -> A, init: A)
    ensures Fold(es1 + es2, cb, init) == Fold(es2, cb, Fold(es1, cb, init))
    decreases |es2|
  {
    if |es2| > 0 {
      var es := es1 + es2;
      assert es[..|es| - 1] == es1 + es2[..|es2| - 1];
      assert es[|es| - 1] == es2[|es2| - 1];
      FoldAppend(es1, es2[..|es2| - 1], cb, init);
    } else {
      assert es1 + es2 == es1;
    }
  }

  /** `reduce(callback, initialValue)`: `each` with a callback that reassigns the
      accumulator and never returns `false`, so every entry is visited. */
  method Reduce<A>(c: Coll, cb: (A, Value, string) -> A, init: A) returns (acc: A)
    ensures acc == Fold(Entries(c), cb, init)
  {
    var es := Entries(c);
    acc := init;
    for i := 0 to |es|
      invariant acc == Fold(es[..i], cb, init)
    {
      assert es[..i + 1][..i] == es[..i];
      acc := cb(acc, es[i].1, es[i].0);
    }
    assert es[..|es|] == es;
  }

  /** The argument of `sum`: none, a field name, or a callback. */
  datatype SumKey = NoSumKey | SumField(name: string) | SumBy(f: Callback)

  /** One step of `sum()` and `sum(field)`: `pv + toNumber(cv)` or
      `pv + toNumber(cv[field])`; reading a field of null or undefined throws. */
  function SumStep(field: Option<string>): (step: (Outcome<Value>, Value, string) -> Outcome<Value>)
  {
    (acc: Outcome<Value>, v: Value, k: string) =>
      match acc
      case TypeError => TypeError
      case Ok(pv) =>
        match field
        case None => Ok(JsPlus(pv, ToNumber(v)))
        case Some(name) =>
          match GetProp(v, name)
          case TypeError => TypeError
          case Ok(x) => Ok(JsPlus(pv, ToNumber(x)))
  }

  /** `values().map(callback)`: the callback's results on the values and their
      index names, or the first TypeError. */
  function MapValues(vs: seq<Value>, f: Callback): (r: Outcome<seq<Value>>)
    ensures r.Ok? ==> |r.value| == |vs| && forall i :: 0 <= i < |vs| ==> f(vs[i], NatToString(i)) == Ok(r.value[i])
    ensures r.TypeError? <==> exists i :: 0 <= i < |vs| && f(vs[i], NatToString(i)).TypeError?
    decreases |vs|
  {
    if |vs| == 0 then Ok([])
    else
      var init := vs[..|vs| - 1];
      assert forall i :: 0 <= i < |init| ==> init[i] == vs[i];
      match MapValues(init, f)
      case TypeError => TypeError
      case Ok(ys) =>
        match f(vs[|vs| - 1], NatToString(|vs| - 1))
        case TypeError => TypeError
        case Ok(y) => Ok(ys + [y])
  }

  /** `pv + cv` with the accumulator threaded through. */
  function PlusStep(acc: Value, v: Value, k: string): Value
  {
    JsPlus(acc, v)
  }

  /** What `sum(key)` returns. */
  function SumSpec(c: Coll, key: SumKey): Outcome<Value>
  {
    match key
    case NoSumKey => Fold(Entries(c), SumStep(None), Ok(Num(0)))
    case SumField(name) => Fold(Entries(c), SumStep(Some(name)), Ok(Num(0)))
    case SumBy(f) =>
      match MapValues(Vals(Entries(c)), f)
      case TypeError => TypeError
      case Ok(ys) => Ok(Fold(ArrayEntries(ys), PlusStep, Num(0)))
  }

  /** `sum(key)`: with no key or a field name, a `reduce` that adds the value
      converted by `toNumber`; with a callback, the mapped values added with a
      plain `+`, which concatenates once a string appears. */
  method Sum(c: Coll, key: SumKey) returns (r: Outcome<Value>)
    ensures r == SumSpec(c, key)
  {
    match key
    case NoSumKey =>
      r := Reduce(c, SumStep(None), Ok(Num(0)));
    case SumField(name) =>
      r := Reduce(c, SumStep(Some(name)), Ok(Num(0)));
    case SumBy(f) =>
      var mapped := MapValues(Vals(Entries(c)), f);
      if mapped.TypeError? {
        return TypeError;
      }
      var total := Reduce(SeqColl(mapped.value), PlusStep, Num(0));
      return Ok(total);
  }

  function IntSum(ns: seq<int>): int
    decreases |ns|
  {
    if |ns| == 0 then 0 else IntSum(ns[..|ns| - 1]) + ns[|ns| - 1]
  }

  function Nums(ns: seq<int>): (vs: seq<Value>)
    ensures |vs| == |ns| && forall i :: 0 <= i < |ns| ==> vs[i] == Num(ns[i])
  {
    seq(|ns|, i requires 0 <= i < |ns| => Num(ns[i]))
  }

  /** Summing number values adds them; each step is ordinary addition. */
  lemma SumOfNumbers(ns: seq<int>)
    ensures SumSpec(SeqColl(Nums(ns)), NoSumKey) == Ok(Num(IntSum(ns)))
  {
    SumStepAddsNumbers();
    var es := Entries(SeqColl(Nums(ns)));
    assert forall i :: 0 <= i < |es| ==> es[i].1 == Num(ns[i]);
    FoldAdds(es, ns, SumStep(None));
  }

  /** Without a key, a step on a number adds it. */
  lemma SumStepAddsNumbers()
    ensures forall acc, n, k :: SumStep(None)(Ok(Num(acc)), Num(n), k) == Ok(Num(acc + n))
  {
    forall acc, n, k ensures SumStep(None)(Ok(Num(acc)), Num(n), k) == Ok(Num(acc + n)) {
      SumStepAdds(acc, Num(n), k);
      PlusNumber(acc, n);
    }
  }

  /** Without a field, a step adds the value converted to a number. */
  lemma SumStepAdds(acc: int, v: Value, k: string)
    ensures SumStep(None)(Ok(Num(acc)), v, k) == Ok(JsPlus(Num(acc), ToNumber(v)))
  {
  }

  /** Adding a number converted to a number is numeric addition. */
  lemma PlusNumber(acc: int, n: int)
    ensures JsPlus(Num(acc), ToNumber(Num(n))) == Num(acc + n)
  {
    ToNumberOfNum(n);
  }

  /** Folding a step that adds numbers over entries holding the numbers `ns`
      gives their sum. */
  lemma {:induction false} FoldAdds(es: seq<(string, Value)>, ns: seq<int>, step: (Outcome<Value>, Value, string) -> Outcome<Value>)
    requires |es| == |ns| && forall i :: 0 <= i < |es| ==> es[i].1 == Num(ns[i])
    requires forall acc, n, k :: step(Ok(Num(acc)), Num(n), k) == Ok(Num(acc + n))
    ensures Fold(es, step, Ok(Num(0))) == Ok(Num(IntSum(ns)))
    decreases |es|
  {
    if |es| > 0 {
      var init, initNs := es[..|es| - 1], ns[..|ns| - 1];
      assert forall i :: 0 <= i < |init| ==> init[i] == es[i] && initNs[i] == ns[i];
      FoldAdds(init, initNs, step);
    }
  }

  /** Without a key nothing can throw: `toNumber` accepts every value. */
  lemma {:induction false} SumNeverThrows(es: seq<(string, Value)>)
    ensures Fold(es, SumStep(None), Ok(Num(0))).Ok?
    ensures SumSpec(MapColl(es), NoSumKey).Ok?
    decreases |es|
  {
    if |es| > 0 {
      SumNeverThrows(es[..|es| - 1]);
    }
  }

  /** Summing a field reads `v[field]`, so a null or undefined value throws. */
  lemma SumFieldOfNull(name: string)
    ensures SumSpec(SeqColl([Null]), SumField(name)).TypeError?
  {
    var es := Entries(SeqColl([Null]));
    assert es[..0] == [];
  }

  // ---------------------------------------------------------------------------
  // max

  /** A number or one of the two infinities `Math.min`/`Math.max` return on no
      arguments. */
  datatype Extended = Finite(n: int) | PlusInfinity | MinusInfinity

  /** `parseFloat(v)`, `None` standing for NaN. */
  function ParseFloat(v: Value): Option<int>
  {
    ParseLeadingInt(ToStr(v))
  }

  /** Numbers parse to themselves. */
  lemma ParseFloatOfNum(n: int)
    ensures ParseFloat(Num(n)) == Some(n)
  {
    ParseLeadingIntOfIntToString(n);
  }

  /** `values.map(parse).filter(v => !isNaN(v))`. */
  function ParsedNumbers(vs: seq<Value>, parse: Value -> Option<int>): (ns: seq<int>)
    decreases |vs|
  {
    if |vs| == 0 then []
    else
      match parse(vs[|vs| - 1])
      case Some(n) => ParsedNumbers(vs[..|vs| - 1], parse) + [n]
      case None => ParsedNumbers(vs[..|vs| - 1], parse)
  }

  /** Exactly the values that parse contribute their number. */
  lemma {:induction false} ParsedNumbersMembers(vs: seq<Value>, parse: Value -> Option<int>, n: int)
    ensures n in ParsedNumbers(vs, parse) <==> exists i :: 0 <= i < |vs| && parse(vs[i]) == Some(n)
    decreases |vs|
  {
    if |vs| > 0 {
      var init := vs[..|vs| - 1];
      ParsedNumbersMembers(init, parse, n);
      assert forall i :: 0 <= i < |init| ==> init[i] == vs[i];
      if exists i :: 0 <= i < |vs| && parse(vs[i]) == Some(n) {
        var i :| 0 <= i < |vs| && parse(vs[i]) == Some(n);
        if i < |init| {
          assert parse(init[i]) == Some(n);
        }
      }
    }
  }

  /** A list of numbers parses to itself. */
  lemma {:induction false} ParsedNumbersOfNums(ns: seq<int>, parse: Value -> Option<int>)
    requires forall n :: parse(Num(n)) == Some(n)
    ensures ParsedNumbers(Nums(ns), parse) == ns
    decreases |ns|
  {
    if |ns| > 0 {
      var init := ns[..|ns| - 1];
      ParsedNumbersOfNums(init, parse);
      assert Nums(ns)[..|ns| - 1] == Nums(init);
      assert ns == init + [ns[|ns| - 1]];
    }
  }

  /** `Math.min(...ns)`: the least element, or +Infinity on no arguments. */
  function MinOf(ns: seq<int>): (r: Extended)
    ensures r.PlusInfinity? <==> |ns| == 0
    ensures r.Finite? ==> r.n in ns && forall m :: m in ns ==> r.n <= m
    ensures !r.MinusInfinity?
    decreases |ns|
  {
    if |ns| == 0 then PlusInfinity
    else
      var init, last := ns[..|ns| - 1], ns[|ns| - 1];
      assert ns == init + [last];
      var m := MinOf(init);
      if m.Finite? && m.n <= last then m else Finite(last)
  }

  /** `Math.max(...ns)`: the greatest element, or -Infinity on no arguments. */
  function MaxOf(ns: seq<int>): (r: Extended)
    ensures r.MinusInfinity? <==> |ns| == 0
    ensures r.Finite? ==> r.n in ns && forall m :: m in ns ==> m <= r.n
    ensures !r.PlusInfinity?
    decreases |ns|
  {
    if |ns| == 0 then MinusInfinity
    else
      var init, last := ns[..|ns| - 1], ns[|ns| - 1];
      assert ns == init + [last];
      var m := MaxOf(init);
      if m.Finite? && m.n >= last then m else Finite(last)
  }

  /** `max()` as written: `Math.min` of the values that parse as numbers, so it
      returns the smallest of them. */
  function MaxAsWritten(c: Coll): (r: Extended)
    ensures r.Finite? ==> r.n in ParsedNumbers(Vals(Entries(c)), ParseFloat)
    ensures r.Finite? ==> forall n :: n in ParsedNumbers(Vals(Entries(c)), ParseFloat) ==> r.n <= n
  {
    MinOf(ParsedNumbers(Vals(Entries(c)), ParseFloat))
  }

  /** `max()` as its name says: `Math.max` of the values that parse as numbers, or
      -Infinity when none does. */
  function MaxIntended(c: Coll): (r: Extended)
    ensures r.Finite? ==> r.n in ParsedNumbers(Vals(Entries(c)), ParseFloat)
    ensures r.Finite? ==> forall n :: n in ParsedNumbers(Vals(Entries(c)), ParseFloat) ==> n <= r.n
    ensures r.MinusInfinity? <==> |ParsedNumbers(Vals(Entries(c)), ParseFloat)| == 0
  {
    MaxOf(ParsedNumbers(Vals(Entries(c)), ParseFloat))
  }

  /** On `[1, 3]` the method named `max` returns 1; the intended maximum is 3. */
  lemma MaxReturnsMinimum()
    ensures MaxAsWritten(SeqColl([Num(1), Num(3)])) == Finite(1)
    ensures MaxIntended(SeqColl([Num(1), Num(3)])) == Finite(3)
  {
    var xs := [Num(1), Num(3)];
    assert Nums([1, 3]) == xs;
    assert Vals(Entries(SeqColl(xs))) == xs;
    forall n ensures ParseFloat(Num(n)) == Some(n) {
      ParseFloatOfNum(n);
    }
    ParsedNumbersOfNums([1, 3], ParseFloat);
    assert ParsedNumbers(Vals(Entries(SeqColl(xs))), ParseFloat) == [1, 3];
    OneThreeBounds();
  }

  /** The least and the greatest of `[1, 3]`. */
  lemma OneThreeBounds()
    ensures MinOf([1, 3]) == Finite(1) && MaxOf([1, 3]) == Finite(3)
  {
    assert [1, 3][..1] == [1];
    assert [1][..0] == [];
    assert MinOf([1]) == Finite(1);
    assert MaxOf([1]) == Finite(1);
  }

  // ---------------------------------------------------------------------------
  // where and its shorthands

  /** What `where(key, operator, value)` returns: `filter` with the compiled
      predicate. */
  function WhereSpec(c: Coll, key: FilterKey, operator: Value, value: Value): Outcome<Coll>
  {
    FilterSpec(c, Some(AsCallback(CallbackForFilter(key, operator, value))))
  }

  method Where(c: Coll, key: FilterKey, operator: Value, value: Value) returns (r: Outcome<Coll>)
    ensures r == WhereSpec(c, key, operator, value)
  {
    r := Filter(c, Some(AsCallback(CallbackForFilter(key, operator, value))));
  }

  method WhereBetween(c: Coll, key: FilterKey, range: Value) returns (r: Outcome<Coll>)
    ensures r == WhereSpec(c, key, Str("between"), range)
  {
    r := Where(c, key, Str("between"), range);
  }

  method WhereIn(c: Coll, key: FilterKey, items: Value) returns (r: Outcome<Coll>)
    ensures r == WhereSpec(c, key, Str("in"), items)
  {
    r := Where(c, key, Str("in"), items);
  }

  method WhereNotBetween(c: Coll, key: FilterKey, range: Value) returns (r: Outcome<Coll>)
    ensures r == WhereSpec(c, key, Str("not_between"), range)
  {
    r := Where(c, key, Str("not_between"), range);
  }

  method WhereNotIn(c: Coll, key: FilterKey, items: Value) returns (r: Outcome<Coll>)
    ensures r == WhereSpec(c, key, Str("not_in"), items)
  {
    r := Where(c, key, Str("not_in"), items);
  }

  method WhereNotNull(c: Coll, key: FilterKey) returns (r: Outcome<Coll>)
    ensures r == WhereSpec(c, key, Str("!=="), Null)
  {
    r := Where(c, key, Str("!=="), Null);
  }

  method WhereNull(c: Coll, key: FilterKey) returns (r: Outcome<Coll>)
    ensures r == WhereSpec(c, key, Str("==="), Null)
  {
    r := Where(c, key, Str("==="), Null);
  }

  /** The shorthands compile to the operator they name, except that an undefined
      range or item list falls into the two-argument form and becomes an equality
      test against the operator's own name. */
  lemma ShorthandOperators(path: string, x: Value)
    ensures !x.Undef? ==> CallbackForFilter(Field(path), Str("between"), x) == Compare(path, Between, x)
    ensures !x.Undef? ==> CallbackForFilter(Field(path), Str("not_between"), x) == Compare(path, NotBetween, x)
    ensures !x.Undef? ==> CallbackForFilter(Field(path), Str("in"), x) == Compare(path, In, x)
    ensures !x.Undef? ==> CallbackForFilter(Field(path), Str("not_in"), x) == Compare(path, NotIn, x)
    ensures CallbackForFilter(Field(path), Str("!=="), Null) == Compare(path, NotIdentical, Null)
    ensures CallbackForFilter(Field(path), Str("==="), Null) == Compare(path, Identical, Null)
    ensures CallbackForFilter(Field(path), Str("between"), Undef) == Compare(path, Equal, Str("between"))
  {
    ShorthandRanges(path, x);
    ShorthandLists(path, x);
  }

  lemma ShorthandRanges(path: string, x: Value)
    ensures !x.Undef? ==> CallbackForFilter(Field(path), Str("between"), x) == Compare(path, Between, x)
    ensures !x.Undef? ==> CallbackForFilter(Field(path), Str("not_between"), x) == Compare(path, NotBetween, x)
  {
  }

  lemma ShorthandLists(path: string, x: Value)
    ensures !x.Undef? ==> CallbackForFilter(Field(path), Str("in"), x) == Compare(path, In, x)
    ensures !x.Undef? ==> CallbackForFilter(Field(path), Str("not_in"), x) == Compare(path, NotIn, x)
  {
  }

  /** The compiled `=== null` and `!== null` predicates throw on the same values,
      and otherwise test whether the field read is `null`. */
  lemma NullTests(path: string, v: Value, k: string)
    ensures AsCallback(Compare(path, Identical, Null))(v, k).TypeError? <==> SafeGetSpec(v, Path(path), Undef).TypeError?
    ensures AsCallback(Compare(path, NotIdentical, Null))(v, k).TypeError? <==> SafeGetSpec(v, Path(path), Undef).TypeError?
    ensures Hit(AsCallback(Compare(path, Identical, Null)), (k, v)) <==> SafeGetSpec(v, Path(path), Undef) == Ok(Null)
    ensures Hit(AsCallback(Compare(path, NotIdentical, Null)), (k, v)) <==>
              SafeGetSpec(v, Path(path), Undef).Ok? && SafeGetSpec(v, Path(path), Undef) != Ok(Null)
  {
    var g := SafeGetSpec(v, Path(path), Undef);
    assert AsCallback(Compare(path, Identical, Null))(v, k) == Apply(Compare(path, Identical, Null), v, k);
    assert AsCallback(Compare(path, NotIdentical, Null))(v, k) == Apply(Compare(path, NotIdentical, Null), v, k);
    NullComparison(path, v, k, g);
  }

  /** The `=== null` and `!== null` comparisons on the value `safeGet` read. */
  lemma NullComparison(path: string, v: Value, k: string, g: Outcome<Value>)
    requires g == SafeGetSpec(v, Path(path), Undef)
    ensures g.TypeError? ==> Apply(Compare(path, Identical, Null), v, k) == TypeError
    ensures g.TypeError? ==> Apply(Compare(path, NotIdentical, Null), v, k) == TypeError
    ensures g.Ok? ==> Apply(Compare(path, Identical, Null), v, k) == Ok(Bool(g.value == Null))
    ensures g.Ok? ==> Apply(Compare(path, NotIdentical, Null), v, k) == Ok(Bool(g.value != Null))
  {
    if g.Ok? {
      HoldsNull(g.value);
    }
  }

  lemma HoldsNull(x: Value)
    ensures Holds(Identical, x, Null) == Ok(x == Null)
    ensures Holds(NotIdentical, x, Null) == Ok(x != Null)
  {
    assert StrictEq(x, Null) <==> x == Null;
  }

  /** `whereNull(field)` keeps only values whose field is `null` and
      `whereNotNull(field)` only the others; the two throw on the same
      collections. */
  lemma WhereNullSplits(c: Coll, path: string)
    ensures WhereSpec(c, Field(path), Str("==="), Null).Ok? <==> WhereSpec(c, Field(path), Str("!=="), Null).Ok?
    ensures WhereSpec(c, Field(path), Str("==="), Null).Ok? ==>
              forall x :: x in WhereSpec(c, Field(path), Str("==="), Null).value.items ==>
                SafeGetSpec(x, Path(path), Undef) == Ok(Null)
    ensures WhereSpec(c, Field(path), Str("!=="), Null).Ok? ==>
              forall x :: x in WhereSpec(c, Field(path), Str("!=="), Null).value.items ==>
                SafeGetSpec(x, Path(path), Undef) != Ok(Null)
  {
    var es := Entries(c);
    var isNull := AsCallback(Compare(path, Identical, Null));
    var notNull := AsCallback(Compare(path, NotIdentical, Null));
    assert CallbackForFilter(Field(path), Str("==="), Null) == Compare(path, Identical, Null);
    assert CallbackForFilter(Field(path), Str("!=="), Null) == Compare(path, NotIdentical, Null);
    forall i | 0 <= i < |es| ensures isNull(es[i].1, es[i].0).Ok? <==> notNull(es[i].1, es[i].0).Ok? {
      NullTests(path, es[i].1, es[i].0);
    }
    if Select(es, isNull).Ok? {
      forall x | x in Select(es, isNull).value ensures SafeGetSpec(x, Path(path), Undef) == Ok(Null) {
        var i :| 0 <= i < |es| && es[i].1 == x && Truthy(isNull(es[i].1, es[i].0).value);
        NullTests(path, es[i].1, es[i].0);
      }
    }
    if Select(es, notNull).Ok? {
      forall x | x in Select(es, notNull).value ensures SafeGetSpec(x, Path(path), Undef) != Ok(Null) {
        var i :| 0 <= i < |es| && es[i].1 == x && Truthy(notNull(es[i].1, es[i].0).value);
        NullTests(path, es[i].1, es[i].0);
      }
    }
  }
}
