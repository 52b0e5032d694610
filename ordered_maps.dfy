/** Insertion-ordered string-keyed dictionaries: the own enumerable properties of a
    JavaScript plain object (and the entries of a `Map<string, T>`), as a list of
    key/value pairs. Assigning `obj[k] = v` replaces the value in place when `k` is
    already present and appends the pair otherwise. */
module OrderedMaps {

  datatype Option<T> = None | Some(value: T)

  function Keys<V>(es: seq<(string, V)>): (ks: seq<string>)
    ensures |ks| == |es|
    ensures forall i :: 0 <= i < |es| ==> ks[i] == es[i].0
  {
    seq(|es|, i requires 0 <= i < |es| => es[i].0)
  }

  function Vals<V>(es: seq<(string, V)>): (vs: seq<V>)
    ensures |vs| == |es|
    ensures forall i :: 0 <= i < |es| ==> vs[i] == es[i].1
  {
    seq(|es|, i requires 0 <= i < |es| => es[i].1)
  }

  /** No key occurs twice: what every object and every `Map` satisfies. */
  predicate UniqueKeys<V>(es: seq<(string, V)>)
  {
    forall i, j :: 0 <= i < j < |es| ==> es[i].0 != es[j].0
  }

  /** `obj[k]` / `map.get(k)`: the value of the first pair with key `k`. */
  function Lookup<V>(es: seq<(string, V)>, k: string): (r: Option<V>)
    ensures r.None? <==> k !in Keys(es)
  {
    assert |es| > 0 ==> Keys(es) == [es[0].0] + Keys(es[1..]);
    if |es| == 0 then None
    else if es[0].0 == k then Some(es[0].1)
    else Lookup(es[1..], k)
  }

  /** A lookup that succeeds returns the value of a pair with that key. */
  lemma {:induction false} LookupFound<V>(es: seq<(string, V)>, k: string) returns (i: nat)
    requires Lookup(es, k).Some?
    ensures i < |es| && es[i] == (k, Lookup(es, k).value)
  {
    if es[0].0 == k {
      i := 0;
    } else {
      var j := LookupFound(es[1..], k);
      i := j + 1;
    }
  }

  lemma KeysCons<V>(e: (string, V), es: seq<(string, V)>)
    ensures Keys([e] + es) == [e.0] + Keys(es)
  {
  }

  lemma KeysSnoc<V>(es: seq<(string, V)>, e: (string, V))
    ensures Keys(es + [e]) == Keys(es) + [e.0]
  {
  }

  lemma KeysInit<V>(ps: seq<(string, V)>)
    requires |ps| > 0
    ensures Keys(ps) == Keys(ps[..|ps| - 1]) + [ps[|ps| - 1].0]
  {
  }

  /** `obj[k] = v`. */
  function Set<V>(es: seq<(string, V)>, k: string, v: V): (r: seq<(string, V)>)
    ensures Keys(r) == if k in Keys(es) then Keys(es) else Keys(es) + [k]
  {
    if |es| == 0 then [(k, v)]
    else
      KeysCons(es[0], es[1..]);
      assert es == [es[0]] + es[1..];
      if es[0].0 == k then
        KeysCons((k, v), es[1..]);
        [(k, v)] + es[1..]
      else
        var rest := Set(es[1..], k, v);
        KeysCons(es[0], rest);
        [es[0]] + rest
  }

  /** Assignment sets `k` and leaves every other key's value alone. */
  lemma {:induction false} SetLookup<V>(es: seq<(string, V)>, k: string, v: V, k': string)
    ensures Lookup(Set(es, k, v), k') == if k' == k then Some(v) else Lookup(es, k')
  {
    if |es| > 0 && es[0].0 != k {
      SetLookup(es[1..], k, v, k');
    }
  }

  /** Assignment keeps keys distinct. */
  lemma {:induction false} SetKeepsUnique<V>(es: seq<(string, V)>, k: string, v: V)
    ensures UniqueKeys(es) ==> UniqueKeys(Set(es, k, v))
  {
    if !UniqueKeys(es) { return; }
    var r := Set(es, k, v);
    forall i, j | 0 <= i < j < |r| ensures r[i].0 != r[j].0 {
      assert Keys(r)[i] == r[i].0 && Keys(r)[j] == r[j].0;
      if j < |es| {
        assert Keys(es)[i] == es[i].0 && Keys(es)[j] == es[j].0;
      } else {
        assert r[j].0 == k && k !in Keys(es);
        assert Keys(es)[i] == r[i].0;
      }
    }
  }

  /** Assigning the pairs of `ps`, in order, into `es`. */
  function SetAll<V>(es: seq<(string, V)>, ps: seq<(string, V)>): (r: seq<(string, V)>)
    ensures UniqueKeys(es) ==> UniqueKeys(r)
    decreases |ps|
  {
    if |ps| == 0 then es
    else
      var before := SetAll(es, ps[..|ps| - 1]);
      SetKeepsUnique(before, ps[|ps| - 1].0, ps[|ps| - 1].1);
      Set(before, ps[|ps| - 1].0, ps[|ps| - 1].1)
  }

  /** `Object.fromEntries(ps)`, and the object a loop `result[p[0]] = p[1]` builds. */
  function FromEntries<V>(ps: seq<(string, V)>): (r: seq<(string, V)>)
    ensures UniqueKeys(r)
  {
    SetAll([], ps)
  }

  /** The last index at which key `k` occurs in `ps`. */
  function LastIndexOf<V>(ps: seq<(string, V)>, k: string): (r: Option<nat>)
    ensures r.None? <==> k !in Keys(ps)
    ensures r.Some? ==>
              && r.value < |ps| && ps[r.value].0 == k
              && forall j :: r.value < j < |ps| ==> ps[j].0 != k
    decreases |ps|
  {
    if |ps| == 0 then None
    else if ps[|ps| - 1].0 == k then Some(|ps| - 1)
    else
      assert Keys(ps) == Keys(ps[..|ps| - 1]) + [ps[|ps| - 1].0];
      LastIndexOf(ps[..|ps| - 1], k)
  }

  /** Later assignments win: after `SetAll(es, ps)` a key holds the value of its last
      pair in `ps`, and a key `ps` never assigns keeps its old value. */
  lemma {:induction false} SetAllLookup<V>(es: seq<(string, V)>, ps: seq<(string, V)>, k: string)
    ensures LastIndexOf(ps, k).Some? ==> Lookup(SetAll(es, ps), k) == Some(ps[LastIndexOf(ps, k).value].1)
    ensures LastIndexOf(ps, k).None? ==> Lookup(SetAll(es, ps), k) == Lookup(es, k)
    decreases |ps|
  {
    if |ps| > 0 {
      SetAllLookup(es, ps[..|ps| - 1], k);
      SetLookup(SetAll(es, ps[..|ps| - 1]), ps[|ps| - 1].0, ps[|ps| - 1].1, k);
    }
  }

  /** Keys already present keep their position; new keys are appended in order of
      first assignment. */
  lemma {:induction false} SetAllKeepsOldKeys<V>(es: seq<(string, V)>, ps: seq<(string, V)>)
    ensures |Keys(SetAll(es, ps))| >= |es|
    ensures Keys(SetAll(es, ps))[..|es|] == Keys(es)
    decreases |ps|
  {
    if |ps| > 0 {
      SetAllKeepsOldKeys(es, ps[..|ps| - 1]);
      var before := SetAll(es, ps[..|ps| - 1]);
      var k := ps[|ps| - 1].0;
      if k !in Keys(before) {
        assert Keys(before + [(k, ps[|ps| - 1].1)])[..|es|] == Keys(before)[..|es|];
      }
    }
  }

  /** `SetAll(es, ps)` has exactly the keys of `es` and of `ps`. */
  lemma {:induction false} SetAllKeys<V>(es: seq<(string, V)>, ps: seq<(string, V)>, k: string)
    ensures k in Keys(SetAll(es, ps)) <==> k in Keys(es) || k in Keys(ps)
    decreases |ps|
  {
    if |ps| > 0 {
      var init, p := ps[..|ps| - 1], ps[|ps| - 1];
      SetAllKeys(es, init, k);
      assert SetAll(es, ps) == Set(SetAll(es, init), p.0, p.1);
      KeysInit(ps);
    }
  }

  /** Round trip: a list of pairs whose keys are already distinct is its own
      `Object.fromEntries`. */
  lemma {:induction false} FromEntriesOfUnique<V>(ps: seq<(string, V)>)
    requires UniqueKeys(ps)
    ensures FromEntries(ps) == ps
    decreases |ps|
  {
    if |ps| > 0 {
      var init, p := ps[..|ps| - 1], ps[|ps| - 1];
      UniqueInit(ps);
      FromEntriesOfUnique(init);
      assert FromEntries(ps) == Set(FromEntries(init), p.0, p.1);
      KeyNotInPrefix(ps, |ps| - 1);
      SetAppendsNewKey(init, p.0, p.1);
      InitSnoc(ps);
    }
  }

  lemma {:induction false} SetAppendsNewKey<V>(es: seq<(string, V)>, k: string, v: V)
    requires k !in Keys(es)
    ensures Set(es, k, v) == es + [(k, v)]
    decreases |es|
  {
    if |es| > 0 {
      var rest := es[1..];
      assert es == [es[0]] + rest;
      KeysCons(es[0], rest);
      assert k != es[0].0 && k !in Keys(rest);
      SetAppendsNewKey(rest, k, v);
      assert Set(es, k, v) == [es[0]] + Set(rest, k, v);
      assert [es[0]] + (rest + [(k, v)]) == es + [(k, v)];
    }
  }

  /** Assigning an existing pair again changes nothing. */
  lemma {:induction false} SetExisting<V>(es: seq<(string, V)>, i: nat)
    requires UniqueKeys(es) && i < |es|
    ensures Set(es, es[i].0, es[i].1) == es
    decreases |es|
  {
    var rest := es[1..];
    assert [es[0]] + rest == es;
    if i > 0 {
      assert rest[i - 1] == es[i] && es[0].0 != es[i].0;
      UniqueTail(es);
      SetExisting(rest, i - 1);
      assert Set(es, es[i].0, es[i].1) == [es[0]] + Set(rest, es[i].0, es[i].1);
    }
  }

  lemma UniqueInit<V>(es: seq<(string, V)>)
    requires |es| > 0 && UniqueKeys(es)
    ensures UniqueKeys(es[..|es| - 1])
  {
    var init := es[..|es| - 1];
    forall i, j | 0 <= i < j < |init| ensures init[i].0 != init[j].0 {
      assert init[i] == es[i] && init[j] == es[j];
    }
  }

  lemma InitSnoc<T>(s: seq<T>)
    requires |s| > 0
    ensures s[..|s| - 1] + [s[|s| - 1]] == s
  {
  }

  lemma UniqueTail<V>(es: seq<(string, V)>)
    requires |es| > 0 && UniqueKeys(es)
    ensures UniqueKeys(es[1..])
  {
    var rest := es[1..];
    forall i, j | 0 <= i < j < |rest| ensures rest[i].0 != rest[j].0 {
      assert rest[i] == es[i + 1] && rest[j] == es[j + 1];
    }
  }

  /** In a map with distinct keys, looking up a key finds its own pair. */
  lemma LookupOfMember<V>(es: seq<(string, V)>, i: nat)
    requires UniqueKeys(es) && i < |es|
    ensures Lookup(es, es[i].0) == Some(es[i].1)
  {
    assert Keys(es)[i] == es[i].0;
    var j := LookupFound(es, es[i].0);
    assert i == j;
  }

  /** A key no pair has is not among the keys. */
  lemma KeyAbsent<V>(es: seq<(string, V)>, k: string)
    requires forall i :: 0 <= i < |es| ==> es[i].0 != k
    ensures k !in Keys(es) && LastIndexOf(es, k).None?
  {
    assert forall i :: 0 <= i < |es| ==> Keys(es)[i] == es[i].0;
  }

  lemma SetAllSnoc<V>(es: seq<(string, V)>, ps: seq<(string, V)>, p: (string, V))
    ensures SetAll(es, ps + [p]) == Set(SetAll(es, ps), p.0, p.1)
  {
    assert (ps + [p])[..|ps|] == ps;
  }

  /** Each step of an assignment loop over `ps` adds one pair to the map built so far. */
  lemma SetAllPrefixStep<V>(es: seq<(string, V)>, ps: seq<(string, V)>, i: nat)
    requires i < |ps|
    ensures SetAll(es, ps[..i + 1]) == Set(SetAll(es, ps[..i]), ps[i].0, ps[i].1)
  {
    assert ps[..i + 1][..i] == ps[..i];
  }

  /** Assigning `ps + qs` is assigning `ps`, then `qs`. */
  lemma {:induction false} SetAllAppend<V>(es: seq<(string, V)>, ps: seq<(string, V)>, qs: seq<(string, V)>)
    ensures SetAll(es, ps + qs) == SetAll(SetAll(es, ps), qs)
    decreases |qs|
  {
    if |qs| == 0 {
      assert ps + qs == ps;
    } else {
      var init, last := qs[..|qs| - 1], qs[|qs| - 1];
      assert qs == init + [last];
      assert ps + qs == (ps + init) + [last];
      SetAllAppend(es, ps, init);
      SetAllSnoc(es, ps + init, last);
      SetAllSnoc(SetAll(es, ps), init, last);
    }
  }

  /** In pairs with distinct keys, the last pair with key `ps[i].0` is pair `i`. */
  lemma LastIndexOfUnique<V>(ps: seq<(string, V)>, i: nat)
    requires UniqueKeys(ps) && i < |ps|
    ensures LastIndexOf(ps, ps[i].0) == Some(i)
  {
    assert Keys(ps)[i] == ps[i].0;
    assert forall j :: 0 <= j < |ps| && j != i ==> ps[j].0 != ps[i].0;
    var r := LastIndexOf(ps, ps[i].0);
    assert r.Some? && ps[r.value].0 == ps[i].0;
  }

  /** Removing pair `p` takes it out of the multiset and keeps the keys distinct. */
  lemma RemoveAt<V>(a: seq<(string, V)>, p: nat)
    requires p < |a| && UniqueKeys(a)
    ensures multiset(a[..p] + a[p + 1..]) == multiset(a) - multiset{a[p]}
    ensures UniqueKeys(a[..p] + a[p + 1..])
    ensures a[p].0 !in Keys(a[..p] + a[p + 1..])
  {
    var a' := a[..p] + a[p + 1..];
    assert a == a[..p] + [a[p]] + a[p + 1..];
    assert multiset(a) == multiset(a[..p]) + multiset{a[p]} + multiset(a[p + 1..]);
    forall i, j | 0 <= i < j < |a'| ensures a'[i].0 != a'[j].0 {
      var i', j' := if i < p then i else i + 1, if j < p then j else j + 1;
      assert a'[i] == a[i'] && a'[j] == a[j'];
    }
    forall i | 0 <= i < |a'| ensures Keys(a')[i] != a[p].0 {
      var i' := if i < p then i else i + 1;
      assert a'[i] == a[i'];
    }
  }

  /** Reordering pairs with distinct keys keeps the keys distinct. */
  lemma {:induction false} PermutationKeepsUnique<V>(a: seq<(string, V)>, b: seq<(string, V)>)
    requires multiset(a) == multiset(b) && UniqueKeys(a)
    ensures UniqueKeys(b)
    decreases |b|
  {
    if |b| > 0 {
      var x, b' := b[|b| - 1], b[..|b| - 1];
      MultisetInit(b);
      var p :| 0 <= p < |a| && a[p] == x;
      var a' := a[..p] + a[p + 1..];
      RemoveAt(a, p);
      PermutationKeepsUnique(a', b');
      KeyAbsentFromPermutation(a', b', x.0);
      UniqueSnoc(b, b');
    }
  }

  /** The last element is in the multiset, and the front holds the rest of it. */
  lemma MultisetInit<T>(b: seq<T>)
    requires |b| > 0
    ensures multiset(b[..|b| - 1]) == multiset(b) - multiset{b[|b| - 1]}
    ensures b[|b| - 1] in multiset(b)
  {
    assert b == b[..|b| - 1] + [b[|b| - 1]];
  }

  /** A key absent from `a` is absent from a permutation of `a`. */
  lemma KeyAbsentFromPermutation<V>(a: seq<(string, V)>, b: seq<(string, V)>, k: string)
    requires multiset(a) == multiset(b) && k !in Keys(a)
    ensures forall i :: 0 <= i < |b| ==> b[i].0 != k
  {
    forall i | 0 <= i < |b| ensures b[i].0 != k {
      assert b[i] in multiset(a);
      var q :| 0 <= q < |a| && a[q] == b[i];
      assert Keys(a)[q] == b[i].0;
    }
  }

  /** Distinct keys in the front and a new key last: all keys are distinct. */
  lemma UniqueSnoc<V>(b: seq<(string, V)>, b': seq<(string, V)>)
    requires |b| > 0 && b' == b[..|b| - 1] && UniqueKeys(b')
    requires forall i :: 0 <= i < |b'| ==> b'[i].0 != b[|b| - 1].0
    ensures UniqueKeys(b)
  {
    forall i, j | 0 <= i < j < |b| ensures b[i].0 != b[j].0 {
      assert b[i] == b'[i];
      if j < |b| - 1 {
        assert b[j] == b'[j];
      }
    }
  }

  /** With distinct keys, the key of pair `i` is not among the keys before it. */
  lemma KeyNotInPrefix<V>(es: seq<(string, V)>, i: nat)
    requires UniqueKeys(es) && i < |es|
    ensures es[i].0 !in Keys(es[..i])
  {
    forall j | 0 <= j < i ensures Keys(es[..i])[j] != es[i].0 {
      assert es[..i][j] == es[j];
    }
  }

  /** Assigning pairs the map already holds changes nothing. */
  lemma {:induction false} SetAllUnchanged<V>(m: seq<(string, V)>, ps: seq<(string, V)>)
    requires UniqueKeys(m)
    requires forall i :: 0 <= i < |ps| ==> Lookup(m, ps[i].0) == Some(ps[i].1)
    ensures SetAll(m, ps) == m
    decreases |ps|
  {
    if |ps| > 0 {
      var init, p := ps[..|ps| - 1], ps[|ps| - 1];
      assert forall i :: 0 <= i < |init| ==> init[i] == ps[i];
      SetAllUnchanged(m, init);
      var j := LookupFound(m, p.0);
      SetExisting(m, j);
    }
  }

  /** Assigning the same pairs with distinct keys a second time changes nothing. */
  lemma SetAllAgain<V>(m: seq<(string, V)>, ps: seq<(string, V)>)
    requires UniqueKeys(m) && UniqueKeys(ps)
    ensures SetAll(SetAll(m, ps), ps) == SetAll(m, ps)
  {
    forall i | 0 <= i < |ps| ensures Lookup(SetAll(m, ps), ps[i].0) == Some(ps[i].1) {
      LastIndexOfUnique(ps, i);
      SetAllLookup(m, ps, ps[i].0);
    }
    SetAllUnchanged(SetAll(m, ps), ps);
  }
}
