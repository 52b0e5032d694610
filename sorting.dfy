/** `Array.prototype.sort` with a comparator that may throw. The standard leaves
    the algorithm to the engine but requires it to be stable; it is modelled as an
    insertion sort. `undefined` elements are set aside, never passed to the
    comparator, and put at the end. */
module Sorting {
  import opened JsValues

  /** A comparator `(a, b) => number`: negative, zero or positive, or a throw. */
  type Comparator<!T> = (T, T) -> Outcome<int>

  /** `a` may stay before `b`. */
  predicate InOrder<T>(cmp: Comparator<T>, a: T, b: T)
  {
    cmp(a, b).Ok? && cmp(a, b).value <= 0
  }

  /** Each element may stay before the next one. */
  predicate SortedBy<T>(s: seq<T>, cmp: Comparator<T>)
  {
    forall i :: 0 <= i < |s| - 1 ==> InOrder(cmp, s[i], s[i + 1])
  }

  /** When `a` sorts after `b`, `b` may stay before `a`. */
  ghost predicate Antisymmetric<T(!new)>(cmp: Comparator<T>)
  {
    forall a, b :: cmp(a, b).Ok? && cmp(a, b).value > 0 ==> InOrder(cmp, b, a)
  }

  /** The comparator throws exactly when one of its operands is `bad`. */
  ghost predicate FailsExactlyOn<T(!new)>(cmp: Comparator<T>, bad: T -> bool)
  {
    forall a, b :: cmp(a, b).TypeError? <==> bad(a) || bad(b)
  }

  /** Inserting `x` into the sorted `r` from the right: `x` moves left past every
      element that compares greater than it, so it stays after equal ones. */
  function Insert<T>(x: T, r: seq<T>, cmp: Comparator<T>): (o: Outcome<seq<T>>)
    ensures o.Ok? ==> multiset(o.value) == multiset(r) + multiset{x}
    ensures o.Ok? ==> |o.value| == |r| + 1
    decreases |r|
  {
    if |r| == 0 then Ok([x])
    else
      assert r == r[..|r| - 1] + [r[|r| - 1]];
      match cmp(r[|r| - 1], x)
      case TypeError => TypeError
      case Ok(c) =>
        if c > 0 then
          match Insert(x, r[..|r| - 1], cmp)
          case TypeError => TypeError
          case Ok(s) => Ok(s + [r[|r| - 1]])
        else Ok(r + [x])
  }

  /** Sorting `s`: each element in turn is inserted into the sorted prefix. */
  function SortWith<T>(s: seq<T>, cmp: Comparator<T>): (o: Outcome<seq<T>>)
    ensures o.Ok? ==> multiset(o.value) == multiset(s)
    ensures o.Ok? ==> |o.value| == |s|
    decreases |s|
  {
    if |s| == 0 then Ok([])
    else
      assert s == s[..|s| - 1] + [s[|s| - 1]];
      match SortWith(s[..|s| - 1], cmp)
      case TypeError => TypeError
      case Ok(r) => Insert(s[|s| - 1], r, cmp)
  }

  lemma {:induction false} InsertSorted<T(!new)>(x: T, r: seq<T>, cmp: Comparator<T>)
    requires Antisymmetric(cmp) && SortedBy(r, cmp)
    ensures Insert(x, r, cmp).Ok? ==> SortedBy(Insert(x, r, cmp).value, cmp)
    decreases |r|
  {
    if |r| > 0 && Insert(x, r, cmp).Ok? {
      var init, last := r[..|r| - 1], r[|r| - 1];
      var c := cmp(last, x).value;
      if c > 0 {
        assert SortedBy(init, cmp) by {
          forall i | 0 <= i < |init| - 1 ensures InOrder(cmp, init[i], init[i + 1]) {
            assert init[i] == r[i] && init[i + 1] == r[i + 1];
          }
        }
        InsertSorted(x, init, cmp);
        var s := Insert(x, init, cmp).value;
        var o := s + [last];
        assert InOrder(cmp, s[|s| - 1], last) by {
          if |init| == 0 || cmp(init[|init| - 1], x).value <= 0 {
            assert s[|s| - 1] == x;
          } else {
            assert s[|s| - 1] == init[|init| - 1] == r[|r| - 2];
          }
        }
        forall i | 0 <= i < |o| - 1 ensures InOrder(cmp, o[i], o[i + 1]) {
          if i < |s| - 1 {
            assert o[i] == s[i] && o[i + 1] == s[i + 1];
          }
        }
      } else {
        var o := r + [x];
        forall i | 0 <= i < |o| - 1 ensures InOrder(cmp, o[i], o[i + 1]) {
          if i < |r| - 1 {
            assert o[i] == r[i] && o[i + 1] == r[i + 1];
          }
        }
      }
    }
  }

  /** With an antisymmetric comparator the result is in order. */
  lemma {:induction false} SortWithSorted<T(!new)>(s: seq<T>, cmp: Comparator<T>)
    requires Antisymmetric(cmp)
    ensures SortWith(s, cmp).Ok? ==> SortedBy(SortWith(s, cmp).value, cmp)
    decreases |s|
  {
    if |s| > 0 {
      SortWithSorted(s[..|s| - 1], cmp);
      match SortWith(s[..|s| - 1], cmp)
      case TypeError =>
      case Ok(r) => InsertSorted(s[|s| - 1], r, cmp);
    }
  }

  /** Inserting into a non-empty list compares `x` at least once, and compares only
      `x` with elements of the list. */
  lemma {:induction false} InsertFails<T(!new)>(x: T, r: seq<T>, cmp: Comparator<T>, bad: T -> bool)
    requires FailsExactlyOn(cmp, bad) && |r| >= 1
    ensures bad(x) ==> Insert(x, r, cmp).TypeError?
    ensures !bad(x) && (forall i :: 0 <= i < |r| ==> !bad(r[i])) ==> Insert(x, r, cmp).Ok?
    decreases |r|
  {
    if |r| >= 2 && !cmp(r[|r| - 1], x).TypeError? && cmp(r[|r| - 1], x).value > 0 {
      var init := r[..|r| - 1];
      assert forall i :: 0 <= i < |init| ==> init[i] == r[i];
      InsertFails(x, init, cmp, bad);
    }
  }

  /** Sorting throws exactly when there are at least two elements and one of them
      makes the comparator throw: every element then meets the comparator. */
  lemma {:induction false} SortWithFails<T(!new)>(s: seq<T>, cmp: Comparator<T>, bad: T -> bool)
    requires FailsExactlyOn(cmp, bad)
    ensures SortWith(s, cmp).TypeError? <==> |s| >= 2 && exists i :: 0 <= i < |s| && bad(s[i])
    decreases |s|
  {
    if |s| >= 2 {
      var init, x := s[..|s| - 1], s[|s| - 1];
      SortWithFails(init, cmp, bad);
      BadSnoc(s, init, bad);
      match SortWith(init, cmp)
      case TypeError =>
      case Ok(r) =>
        if |init| == 1 {
          SortWithShort(init, cmp);
        } else {
          NoBadAfterSort(init, r, bad);
        }
        InsertFails(x, r, cmp, bad);
    } else {
      SortWithShort(s, cmp);
    }
  }

  /** A `bad` element of `s` is in its front or is its last element. */
  lemma BadSnoc<T>(s: seq<T>, init: seq<T>, bad: T -> bool)
    requires |s| > 0 && init == s[..|s| - 1]
    ensures (exists i :: 0 <= i < |s| && bad(s[i])) <==>
            (exists i :: 0 <= i < |init| && bad(init[i])) || bad(s[|s| - 1])
  {
    if exists i :: 0 <= i < |s| && bad(s[i]) {
      var i :| 0 <= i < |s| && bad(s[i]);
      if i < |init| {
        assert init[i] == s[i];
      }
    }
    if exists i :: 0 <= i < |init| && bad(init[i]) {
      var i :| 0 <= i < |init| && bad(init[i]);
      assert s[i] == init[i];
    }
  }

  /** A permutation of elements none of which is `bad` has no `bad` element. */
  lemma NoBadAfterSort<T>(s: seq<T>, r: seq<T>, bad: T -> bool)
    requires multiset(r) == multiset(s)
    ensures (forall i :: 0 <= i < |s| ==> !bad(s[i])) ==> forall i :: 0 <= i < |r| ==> !bad(r[i])
  {
    if forall i :: 0 <= i < |s| ==> !bad(s[i]) {
      forall i | 0 <= i < |r| ensures !bad(r[i]) {
        assert r[i] in multiset(s);
        var j :| 0 <= j < |s| && s[j] == r[i];
      }
    }
  }

  /** A comparator that never throws always sorts. */
  lemma SortWithTotal<T(!new)>(s: seq<T>, cmp: Comparator<T>)
    requires forall a, b :: cmp(a, b).Ok?
    ensures SortWith(s, cmp).Ok?
  {
    SortWithFails(s, cmp, _ => false);
  }

  /** Up to one element is already sorted and is never compared. */
  lemma SortWithShort<T>(s: seq<T>, cmp: Comparator<T>)
    requires |s| <= 1
    ensures SortWith(s, cmp).Ok? && SortWith(s, cmp).value == s
  {
    if |s| == 1 {
      assert s[..0] == [];
      assert SortWith(s[..0], cmp) == Ok([]);
      assert s == [s[0]];
    }
  }

  // ---------------------------------------------------------------------------
  // Arrays of values

  /** The elements other than `undefined`, in order, and the `undefined` ones. */
  function SplitUndefined(xs: seq<Value>): (p: (seq<Value>, seq<Value>))
    ensures multiset(p.0) + multiset(p.1) == multiset(xs)
    ensures forall i :: 0 <= i < |p.0| ==> p.0[i] != Undef
    ensures forall i :: 0 <= i < |p.1| ==> p.1[i] == Undef
    decreases |xs|
  {
    if |xs| == 0 then ([], [])
    else
      assert xs == xs[..|xs| - 1] + [xs[|xs| - 1]];
      var (d, u) := SplitUndefined(xs[..|xs| - 1]);
      if xs[|xs| - 1] == Undef then (d, u + [Undef]) else (d + [xs[|xs| - 1]], u)
  }

  /** `xs.sort(cmp)` on a copy: the defined elements sorted, then every `undefined`. */
  function ArraySort(xs: seq<Value>, cmp: Comparator<Value>): (o: Outcome<seq<Value>>)
    ensures o.Ok? ==> multiset(o.value) == multiset(xs)
    ensures o.Ok? ==> forall i, j :: 0 <= i < j < |o.value| && o.value[i] == Undef ==> o.value[j] == Undef
  {
    var (d, u) := SplitUndefined(xs);
    match SortWith(d, cmp)
    case TypeError => TypeError
    case Ok(r) =>
      assert forall i :: 0 <= i < |r| ==> r[i] != Undef by {
        forall i | 0 <= i < |r| ensures r[i] != Undef {
          assert r[i] in multiset(d);
        }
      }
      Ok(r + u)
  }

  /** With an antisymmetric comparator the defined elements come out in order. */
  lemma ArraySortSorted(xs: seq<Value>, cmp: Comparator<Value>)
    requires Antisymmetric(cmp)
    ensures ArraySort(xs, cmp).Ok? ==>
              forall i :: 0 <= i < |ArraySort(xs, cmp).value| - 1 && ArraySort(xs, cmp).value[i + 1] != Undef ==>
                InOrder(cmp, ArraySort(xs, cmp).value[i], ArraySort(xs, cmp).value[i + 1])
  {
    var (d, u) := SplitUndefined(xs);
    SortWithSorted(d, cmp);
    if SortWith(d, cmp).Ok? {
      var r := SortWith(d, cmp).value;
      var o := r + u;
      forall i | 0 <= i < |o| - 1 && o[i + 1] != Undef ensures InOrder(cmp, o[i], o[i + 1]) {
        assert i + 1 < |r|;
        assert o[i] == r[i] && o[i + 1] == r[i + 1];
      }
    }
  }

  /** The sort throws exactly when at least two defined elements remain and one of
      them makes the comparator throw. */
  lemma ArraySortFails(xs: seq<Value>, cmp: Comparator<Value>, bad: Value -> bool)
    requires FailsExactlyOn(cmp, bad)
    ensures ArraySort(xs, cmp).TypeError? <==>
              var d := SplitUndefined(xs).0; |d| >= 2 && exists i :: 0 <= i < |d| && bad(d[i])
  {
    SortWithFails(SplitUndefined(xs).0, cmp, bad);
  }
}
