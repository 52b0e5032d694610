/** The comparators `sort` and `sortBy` hand to `Array.prototype.sort`: the
    default `compared`, a property name, a list of `[name, direction]` pairs
    compared in turn, or a numeric key function. */
module SortKeys {
  import opened OrderedMaps
  import opened JsValues
  import opened Helpers
  import opened Comparisons
  import opened Sorting

  /** The `key` argument of `sortBy`. A spec pair sorts descending exactly when its
      second element is the string 'desc'. */
  datatype SortKey =
    | ByName(name: string)
    | BySpecs(specs: seq<(string, Value)>)
    | ByKey(f: Value -> Outcome<int>)

  /** `sort(compare, descending)`: the given comparator, or `compared`. */
  function DefaultComparator(compare: Option<Comparator<Value>>, descending: bool): (cmp: Comparator<Value>)
    ensures compare.None? ==> forall a, b :: cmp(a, b) == Compared(a, b, descending)
    ensures compare.Some? ==> cmp == compare.value
  {
    match compare
    case Some(c) => c
    case None => (a, b) => Compared(a, b, descending)
  }

  /** `compared(safeGet(a, name), safeGet(b, name), descending)`; the lookups go
      first, and either may throw. */
  function NameCompare(name: string, a: Value, b: Value, descending: bool): Outcome<int>
  {
    match (SafeGetSpec(a, Path(name), Undef), SafeGetSpec(b, Path(name), Undef))
    case (Ok(x), Ok(y)) => Compared(x, y, descending)
    case _ => TypeError
  }

  /** One `[name, direction]` pair of a spec list. */
  function SpecStep(spec: (string, Value), a: Value, b: Value): Outcome<int>
  {
    NameCompare(spec.0, a, b, spec.1 == Str("desc"))
  }

  /** The first comparison that is not zero, or zero when all are; a throw before
      that point propagates. */
  function FirstNonZero(cs: seq<Outcome<int>>): (r: Outcome<int>)
    ensures r.Ok? && r.value == 0 <==> forall j :: 0 <= j < |cs| ==> cs[j] == Ok(0)
    ensures r.Ok? && r.value != 0 ==>
              exists j :: 0 <= j < |cs| && cs[j] == r && forall i :: 0 <= i < j ==> cs[i] == Ok(0)
    ensures r.TypeError? ==>
              exists j :: 0 <= j < |cs| && cs[j].TypeError? && forall i :: 0 <= i < j ==> cs[i] == Ok(0)
    decreases |cs|
  {
    if |cs| == 0 then Ok(0)
    else
      var rest := cs[1..];
      assert forall j :: 0 <= j < |rest| ==> rest[j] == cs[j + 1];
      match cs[0]
      case TypeError => TypeError
      case Ok(c) =>
        if c != 0 then Ok(c)
        else
          var r := FirstNonZero(rest);
          assert r.Ok? && r.value != 0 ==>
                   exists j :: 0 <= j < |cs| && cs[j] == r && forall i :: 0 <= i < j ==> cs[i] == Ok(0) by {
            if r.Ok? && r.value != 0 {
              var j :| 0 <= j < |rest| && rest[j] == r && forall i :: 0 <= i < j ==> rest[i] == Ok(0);
              assert cs[j + 1] == r;
            }
          }
          assert r.TypeError? ==>
                   exists j :: 0 <= j < |cs| && cs[j].TypeError? && forall i :: 0 <= i < j ==> cs[i] == Ok(0) by {
            if r.TypeError? {
              var j :| 0 <= j < |rest| && rest[j].TypeError? && forall i :: 0 <= i < j ==> rest[i] == Ok(0);
              assert cs[j + 1].TypeError?;
            }
          }
          r
  }

  /** When every comparison that succeeds is negated in `ds`, so is the decision. */
  lemma {:induction false} FirstNonZeroNegated(cs: seq<Outcome<int>>, ds: seq<Outcome<int>>)
    requires |cs| == |ds|
    requires forall j :: 0 <= j < |cs| && cs[j].Ok? ==> ds[j].Ok? && ds[j].value == -cs[j].value
    ensures FirstNonZero(cs).Ok? ==> FirstNonZero(ds).Ok? && FirstNonZero(ds).value == -FirstNonZero(cs).value
    decreases |cs|
  {
    if |cs| > 0 && cs[0].Ok? && cs[0].value == 0 {
      assert forall j :: 0 <= j < |cs| - 1 ==> cs[1..][j] == cs[j + 1] && ds[1..][j] == ds[j + 1];
      FirstNonZeroNegated(cs[1..], ds[1..]);
    }
  }

  /** The comparisons of the spec pairs, in order. */
  function SpecResults(specs: seq<(string, Value)>, a: Value, b: Value): (cs: seq<Outcome<int>>)
    ensures |cs| == |specs| && forall j :: 0 <= j < |specs| ==> cs[j] == SpecStep(specs[j], a, b)
  {
    seq(|specs|, j requires 0 <= j < |specs| => SpecStep(specs[j], a, b))
  }

  /** The comparison of a spec list: the first pair whose comparison is not zero
      decides, and zero when every pair ties. */
  function SpecCompare(specs: seq<(string, Value)>, a: Value, b: Value): (r: Outcome<int>)
    ensures r.Ok? && r.value == 0 <==> forall j :: 0 <= j < |specs| ==> SpecStep(specs[j], a, b) == Ok(0)
    ensures r.Ok? && r.value != 0 ==>
              exists j :: 0 <= j < |specs| && SpecStep(specs[j], a, b) == r
                          && forall i :: 0 <= i < j ==> SpecStep(specs[i], a, b) == Ok(0)
    ensures r.TypeError? ==>
              exists j :: 0 <= j < |specs| && SpecStep(specs[j], a, b).TypeError?
                          && forall i :: 0 <= i < j ==> SpecStep(specs[i], a, b) == Ok(0)
  {
    var cs := SpecResults(specs, a, b);
    FirstNonZeroOf(specs, s => SpecStep(s, a, b), cs);
    FirstNonZero(cs)
  }

  /** `FirstNonZero` of the comparisons `f` makes of a list, stated on the list. */
  lemma FirstNonZeroOf<X>(xs: seq<X>, f: X -> Outcome<int>, cs: seq<Outcome<int>>)
    requires |cs| == |xs| && forall j :: 0 <= j < |xs| ==> cs[j] == f(xs[j])
    ensures var r := FirstNonZero(cs);
            && (r.Ok? && r.value == 0 <==> forall j :: 0 <= j < |xs| ==> f(xs[j]) == Ok(0))
            && (r.Ok? && r.value != 0 ==>
                  exists j :: 0 <= j < |xs| && f(xs[j]) == r && forall i :: 0 <= i < j ==> f(xs[i]) == Ok(0))
            && (r.TypeError? ==>
                  exists j :: 0 <= j < |xs| && f(xs[j]).TypeError? && forall i :: 0 <= i < j ==> f(xs[i]) == Ok(0))
  {
    var r := FirstNonZero(cs);
    if r.Ok? && r.value != 0 {
      var j :| 0 <= j < |cs| && cs[j] == r && forall i :: 0 <= i < j ==> cs[i] == Ok(0);
      assert f(xs[j]) == r;
    }
    if r.TypeError? {
      var j :| 0 <= j < |cs| && cs[j].TypeError? && forall i :: 0 <= i < j ==> cs[i] == Ok(0);
      assert f(xs[j]).TypeError?;
    }
  }

  /** The comparator's `for (let item of key)` loop, returning the first non-zero
      comparison. */
  method CompareBySpecs(specs: seq<(string, Value)>, a: Value, b: Value) returns (r: Outcome<int>)
    ensures r == SpecCompare(specs, a, b)
  {
    ghost var cs := SpecResults(specs, a, b);
    assert SpecCompare(specs, a, b) == FirstNonZero(cs);
    for j := 0 to |specs|
      invariant FirstNonZero(cs) == FirstNonZero(cs[j..])
    {
      FirstNonZeroAdvance(cs, j);
      var compareResult := SpecStep(specs[j], a, b);
      if compareResult.TypeError? || compareResult.value != 0 {
        return compareResult;
      }
    }
    assert cs[|specs|..] == [];
    return Ok(0);
  }

  /** One pass of the loop: a throw or a non-zero comparison decides, a zero goes on. */
  lemma FirstNonZeroAdvance(cs: seq<Outcome<int>>, j: nat)
    requires j < |cs|
    ensures cs[j].TypeError? || cs[j].value != 0 ==> FirstNonZero(cs[j..]) == cs[j]
    ensures cs[j] == Ok(0) ==> FirstNonZero(cs[j..]) == FirstNonZero(cs[j + 1..])
  {
    assert cs[j..][0] == cs[j] && cs[j..][1..] == cs[j + 1..];
  }

  /** `key(a) - key(b)`, or `key(b) - key(a)` when descending. */
  function KeyDiff(f: Value -> Outcome<int>, a: Value, b: Value, descending: bool): (r: Outcome<int>)
    ensures r.TypeError? <==> f(a).TypeError? || f(b).TypeError?
    ensures r.Ok? ==> r.value == if descending then f(b).value - f(a).value else f(a).value - f(b).value
  {
    match (f(a), f(b))
    case (Ok(x), Ok(y)) => Ok(if descending then y - x else x - y)
    case _ => TypeError
  }

  /** The comparator `sortBy(key, descending)` sorts with. */
  function KeyComparator(key: SortKey, descending: bool): Comparator<Value>
  {
    match key
    case ByName(name) => (a, b) => NameCompare(name, a, b, descending)
    case BySpecs(specs) => (a, b) => SpecCompare(specs, a, b)
    case ByKey(f) => (a, b) => KeyDiff(f, a, b, descending)
  }

  /** Sorting descending by a name or a key function is sorting ascending with the
      operands swapped. */
  lemma DescendingSwaps(key: SortKey, a: Value, b: Value)
    requires !key.BySpecs?
    ensures KeyComparator(key, true)(a, b) == KeyComparator(key, false)(b, a)
  {
    match key
    case ByName(name) =>
      assert KeyComparator(key, true)(a, b) == NameCompare(name, a, b, true);
      assert KeyComparator(key, false)(b, a) == NameCompare(name, b, a, false);
      NameCompareSwaps(name, a, b);
    case ByKey(f) =>
      assert KeyComparator(key, true)(a, b) == KeyDiff(f, a, b, true);
      assert KeyComparator(key, false)(b, a) == KeyDiff(f, b, a, false);
  }

  lemma NameCompareSwaps(name: string, a: Value, b: Value)
    ensures NameCompare(name, a, b, true) == NameCompare(name, b, a, false)
  {
    var x, y := SafeGetSpec(a, Path(name), Undef), SafeGetSpec(b, Path(name), Undef);
    if x.Ok? && y.Ok? {
      ComparedReversed(x.value, y.value);
    }
  }

  /** A spec pair named 'desc' compares the other way round from one without a
      direction. */
  lemma SpecStepDescending(name: string, a: Value, b: Value)
    ensures SpecStep((name, Str("desc")), a, b) == SpecStep((name, Undef), b, a)
  {
    DescendingSwaps(ByName(name), a, b);
  }

  lemma NameCompareAntisymmetric(name: string, a: Value, b: Value, descending: bool)
    ensures NameCompare(name, a, b, descending).Ok? ==>
              NameCompare(name, b, a, descending).Ok? && NameCompare(name, b, a, descending).value == -NameCompare(name, a, b, descending).value
  {
    var x, y := SafeGetSpec(a, Path(name), Undef), SafeGetSpec(b, Path(name), Undef);
    if x.Ok? && y.Ok? {
      ComparedAntisymmetric(x.value, y.value, descending);
    }
  }

  /** Swapping the operands of a spec-list comparison negates it. */
  lemma SpecCompareAntisymmetric(specs: seq<(string, Value)>, a: Value, b: Value)
    ensures SpecCompare(specs, a, b).Ok? ==>
              SpecCompare(specs, b, a).Ok? && SpecCompare(specs, b, a).value == -SpecCompare(specs, a, b).value
  {
    var cs, ds := SpecResults(specs, a, b), SpecResults(specs, b, a);
    forall j | 0 <= j < |specs| && cs[j].Ok? ensures ds[j].Ok? && ds[j].value == -cs[j].value {
      NameCompareAntisymmetric(specs[j].0, a, b, specs[j].1 == Str("desc"));
    }
    FirstNonZeroNegated(cs, ds);
  }

  /** Every `sortBy` comparator is antisymmetric, so the sort puts the values in
      its order. */
  lemma KeyComparatorAntisymmetric(key: SortKey, descending: bool)
    ensures Antisymmetric(KeyComparator(key, descending))
  {
    var cmp := KeyComparator(key, descending);
    forall a, b | cmp(a, b).Ok? && cmp(a, b).value > 0 ensures InOrder(cmp, b, a) {
      match key
      case ByName(name) => NameCompareAntisymmetric(name, a, b, descending);
      case BySpecs(specs) => SpecCompareAntisymmetric(specs, a, b);
      case ByKey(f) =>
    }
  }

  /** The default comparator `compared` is antisymmetric. */
  lemma ComparedComparatorAntisymmetric(descending: bool)
    ensures Antisymmetric(DefaultComparator(None, descending))
  {
    var cmp := DefaultComparator(None, descending);
    forall a, b | cmp(a, b).Ok? && cmp(a, b).value > 0 ensures InOrder(cmp, b, a) {
      ComparedAntisymmetric(a, b, descending);
    }
  }

  /** A comparator on values, applied to the values of two entries. */
  function OnValues(cmp: Comparator<Value>): (ec: Comparator<(string, Value)>)
    ensures forall a, b :: ec(a, b) == cmp(a.1, b.1)
  {
    (a: (string, Value), b: (string, Value)) => cmp(a.1, b.1)
  }

  lemma OnValuesAntisymmetric(cmp: Comparator<Value>)
    requires Antisymmetric(cmp)
    ensures Antisymmetric(OnValues(cmp))
  {
  }
}
