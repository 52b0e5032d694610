/** The `chunk(size)` reduction every collection variant uses: element `ind` goes
    into sub-array `Math.floor(ind / size)`, which is pushed when it is the next
    one and extended when it already exists. A size that is not positive makes
    that index NaN, infinite or negative, and pushing into the missing sub-array
    throws. */
module Chunks {
  import opened OrderedMaps
  import opened JsValues
  import opened CollectionBuilders

  /** `Math.floor(ind / size)`: `None` when it is NaN (`0 / 0`) or infinite. */
  function SubIndex(ind: nat, size: int): (r: Option<int>)
    ensures r.Some? <==> size != 0
    ensures size < 0 ==> (r.value == 0 <==> ind == 0) && r.value <= 0
  {
    if size > 0 then Some(ind / size)
    else if size < 0 then
      var m := -size;
      assert ind > 0 && ind % m == 0 ==> ind / m > 0;
      Some(if ind % m == 0 then -(ind / m) else -(ind / m) - 1)
    else None
  }

  /** One reduction step: `acc.push([x])` when the sub-index is `acc.length`,
      `acc[sub].push(x)` when it names an existing chunk; any other index reads
      `undefined`, and pushing into it throws. */
  function ChunkPut<T>(acc: seq<seq<T>>, sub: Option<int>, x: T): (r: Outcome<seq<seq<T>>>)
  {
    match sub
    case None => TypeError
    case Some(s) =>
      if s == |acc| then Ok(acc + [[x]])
      else if 0 <= s < |acc| then Ok(acc[s := acc[s] + [x]])
      else TypeError
  }

  /** The chunks the reduction builds over `xs`. */
  function ChunkAcc<T>(xs: seq<T>, size: int): (r: Outcome<seq<seq<T>>>)
    decreases |xs|
  {
    if |xs| == 0 then Ok([])
    else
      match ChunkAcc(xs[..|xs| - 1], size)
      case TypeError => TypeError
      case Ok(acc) => ChunkPut(acc, SubIndex(|xs| - 1, size), xs[|xs| - 1])
  }

  lemma ChunkAccSnoc<T>(xs: seq<T>, x: T, size: int)
    ensures ChunkAcc(xs + [x], size) ==
              match ChunkAcc(xs, size)
              case TypeError => TypeError
              case Ok(acc) => ChunkPut(acc, SubIndex(|xs|, size), x)
  {
    assert (xs + [x])[..|xs|] == xs;
  }

  /** Once a step throws, the reduction throws. */
  lemma {:induction false} ChunkAccThrowsOnPrefix<T>(xs: seq<T>, size: int, i: nat)
    requires i <= |xs| && ChunkAcc(xs[..i], size).TypeError?
    ensures ChunkAcc(xs, size).TypeError?
    decreases |xs|
  {
    if i < |xs| {
      var init := xs[..|xs| - 1];
      assert init[..i] == xs[..i];
      ChunkAccThrowsOnPrefix(init, size, i);
    } else {
      assert xs[..i] == xs;
    }
  }

  /** `(i + 1) * k` without the product of a sum. */
  lemma MulSucc(i: int, k: int)
    ensures (i + 1) * k == i * k + k
  {
  }

  lemma MulMono(i: int, j: int, k: int)
    requires 0 <= i <= j && k > 0
    ensures i * k <= j * k
  {
  }

  /** The quotient of `q * k + r` with `0 <= r < k` is `q`. */
  lemma DivUnique(n: int, q: int, r: int, k: int)
    requires k > 0 && 0 <= r < k && n == q * k + r
    ensures n / k == q
  {
    var m, s := n / k, n % k;
    assert n == m * k + s && 0 <= s < k;
    if m > q {
      MulMono(q + 1, m, k);
      MulSucc(q, k);
      assert false;
    }
    if m < q {
      MulMono(m + 1, q, k);
      MulSucc(m, k);
      assert false;
    }
  }

  function Min(a: int, b: int): int
  {
    if a <= b then a else b
  }

  /** The closed form of chunking by a positive `k`: chunk `i` holds the elements at
      positions `i * k` up to `i * k + k`, the last one cut at the end of `xs`, and
      there are just enough chunks to hold every element. */
  ghost predicate Layout<T>(xs: seq<T>, k: int, acc: seq<seq<T>>)
    requires k > 0
  {
    && (|acc| == 0 <==> |xs| == 0)
    && (|acc| > 0 ==> |acc| * k - k < |xs| <= |acc| * k)
    && forall i :: 0 <= i < |acc| ==>
         0 <= i * k < |xs| && acc[i] == xs[i * k .. Min(i * k + k, |xs|)]
  }

  /** Consecutive slices ending before the last element of `xs` stay the same when
      `x` is appended. */
  lemma LayoutGrow<T>(xs: seq<T>, x: T, k: int, acc: seq<seq<T>>, upto: nat)
    requires k > 0 && Layout(xs, k, acc) && upto <= |acc|
    requires forall i :: 0 <= i < upto ==> i * k + k <= |xs|
    ensures forall i :: 0 <= i < upto ==> acc[i] == (xs + [x])[i * k .. Min(i * k + k, |xs| + 1)]
  {
    forall i | 0 <= i < upto ensures acc[i] == (xs + [x])[i * k .. Min(i * k + k, |xs| + 1)] {
      assert Min(i * k + k, |xs| + 1) == i * k + k == Min(i * k + k, |xs|);
      assert (xs + [x])[i * k .. i * k + k] == xs[i * k .. i * k + k];
    }
  }

  /** A step when every chunk is full: the element starts a new chunk. */
  lemma LayoutPush<T>(xs: seq<T>, x: T, k: int, acc: seq<seq<T>>)
    requires k > 0 && Layout(xs, k, acc) && |xs| == |acc| * k
    ensures ChunkPut(acc, SubIndex(|xs|, k), x) == Ok(acc + [[x]])
    ensures Layout(xs + [x], k, acc + [[x]])
  {
    var n, L, ys, acc' := |xs|, |acc|, xs + [x], acc + [[x]];
    DivUnique(n, L, 0, k);
    forall i | 0 <= i < L ensures i * k + k <= n {
      MulMono(i, L - 1, k);
      MulSucc(i, k);
      MulSucc(L - 1, k);
    }
    LayoutGrow(xs, x, k, acc, L);
    MulSucc(L, k);
    assert acc'[L] == ys[L * k .. Min(L * k + k, n + 1)];
    forall i | 0 <= i < |acc'|
      ensures 0 <= i * k < |ys| && acc'[i] == ys[i * k .. Min(i * k + k, |ys|)]
    {
      if i < L {
        assert acc'[i] == acc[i];
      }
    }
  }

  /** A step when the last chunk has room: the element joins it. */
  lemma LayoutExtend<T>(xs: seq<T>, x: T, k: int, acc: seq<seq<T>>)
    requires k > 0 && Layout(xs, k, acc) && 0 < |xs| < |acc| * k
    ensures ChunkPut(acc, SubIndex(|xs|, k), x) == Ok(acc[|acc| - 1 := acc[|acc| - 1] + [x]])
    ensures Layout(xs + [x], k, acc[|acc| - 1 := acc[|acc| - 1] + [x]])
  {
    var n, L, ys := |xs|, |acc|, xs + [x];
    var acc' := acc[L - 1 := acc[L - 1] + [x]];
    MulSucc(L - 1, k);
    DivUnique(n, L - 1, n - (L * k - k), k);
    forall i | 0 <= i < L - 1 ensures i * k + k <= n {
      MulMono(i, L - 2, k);
      MulSucc(i, k);
      MulSucc(L - 2, k);
    }
    LayoutGrow(xs, x, k, acc, L - 1);
    assert acc'[L - 1] == ys[(L - 1) * k .. Min((L - 1) * k + k, n + 1)] by {
      assert Min((L - 1) * k + k, n + 1) == n + 1;
      assert Min((L - 1) * k + k, n) == n;
      assert acc[L - 1] == xs[(L - 1) * k .. n];
      assert ys[(L - 1) * k .. n + 1] == xs[(L - 1) * k .. n] + [x];
    }
    forall i | 0 <= i < |acc'|
      ensures 0 <= i * k < |ys| && acc'[i] == ys[i * k .. Min(i * k + k, |ys|)]
    {
      if i < L - 1 {
        assert acc'[i] == acc[i];
      }
    }
  }

  /** With a positive size the reduction never throws and builds the closed form. */
  lemma {:induction false} ChunkAccLayout<T>(xs: seq<T>, k: int)
    requires k > 0
    ensures ChunkAcc(xs, k).Ok? && Layout(xs, k, ChunkAcc(xs, k).value)
    decreases |xs|
  {
    if |xs| > 0 {
      var init, x := xs[..|xs| - 1], xs[|xs| - 1];
      assert xs == init + [x];
      ChunkAccLayout(init, k);
      ChunkAccSnoc(init, x, k);
      var acc := ChunkAcc(init, k).value;
      if |init| == 0 {
        assert acc == [] && acc + [[x]] == [[x]] && SubIndex(0, k) == Some(0);
        assert ChunkAcc(xs, k) == Ok([[x]]);
        assert xs[0 .. Min(0 * k + k, 1)] == [x];
      } else if |init| == |acc| * k {
        LayoutPush(init, x, k, acc);
      } else {
        LayoutExtend(init, x, k, acc);
      }
    }
  }

  /** The chunks of the closed form concatenate to the elements up to chunk `j`. */
  lemma {:induction false} LayoutFlattenPrefix<T>(xs: seq<T>, k: int, acc: seq<seq<T>>, j: nat)
    requires k > 0 && Layout(xs, k, acc) && j <= |acc|
    ensures Flatten(acc[..j]) == xs[..Min(j * k, |xs|)]
    decreases j
  {
    if j > 0 {
      LayoutFlattenPrefix(xs, k, acc, j - 1);
      assert acc[..j] == acc[..j - 1] + [acc[j - 1]];
      FlattenSnoc(acc[..j - 1], acc[j - 1]);
      MulSucc(j - 1, k);
      assert Min((j - 1) * k, |xs|) == (j - 1) * k;
    }
  }

  /** Every chunk but the last holds exactly `k` elements, the last one between one
      and `k`, and together they are `xs` in order. */
  lemma LayoutShape<T>(xs: seq<T>, k: int, acc: seq<seq<T>>)
    requires k > 0 && Layout(xs, k, acc)
    ensures Flatten(acc) == xs
    ensures forall i :: 0 <= i < |acc| - 1 ==> |acc[i]| == k
    ensures |acc| > 0 ==> 0 < |acc[|acc| - 1]| <= k
  {
    LayoutFlattenPrefix(xs, k, acc, |acc|);
    assert acc[..|acc|] == acc;
    if |acc| > 0 {
      assert Min(|acc| * k, |xs|) == |xs|;
    }
    forall i | 0 <= i < |acc| - 1 ensures |acc[i]| == k {
      MulMono(i, |acc| - 2, k);
      MulSucc(i, k);
      MulSucc(|acc| - 2, k);
    }
  }

  /** `chunk(k)` with a positive `k`: concatenating the chunks gives back `xs`, and
      every chunk but the last is full. */
  lemma ChunkAccShape<T>(xs: seq<T>, k: int)
    requires k > 0
    ensures ChunkAcc(xs, k).Ok?
    ensures Flatten(ChunkAcc(xs, k).value) == xs
    ensures var acc := ChunkAcc(xs, k).value;
            && (forall i :: 0 <= i < |acc| - 1 ==> |acc[i]| == k)
            && (|acc| > 0 ==> 0 < |acc[|acc| - 1]| <= k)
  {
    ChunkAccLayout(xs, k);
    LayoutShape(xs, k, ChunkAcc(xs, k).value);
  }

  /** `chunk(0)` throws on the first element, whose index `0 / 0` is NaN. */
  lemma ChunkAccZero<T>(xs: seq<T>)
    ensures ChunkAcc(xs, 0).Ok? <==> |xs| == 0
  {
    if |xs| > 0 {
      assert xs[..1] == [] + [xs[0]];
      ChunkAccSnoc([], xs[0], 0);
      ChunkAccThrowsOnPrefix(xs, 0, 1);
    }
  }

  /** The first element always opens chunk 0 unless the size is zero. */
  lemma ChunkAccFirst<T>(xs: seq<T>, size: int)
    requires |xs| > 0 && size != 0
    ensures ChunkAcc(xs[..1], size) == Ok([[xs[0]]])
  {
    assert xs[..1] == xs[..0] + [xs[0]];
    ChunkAccSnoc(xs[..0], xs[0], size);
    var first := SubIndex(0, size);
    assert first.Some? && first.value == 0;
    assert ChunkAcc(xs[..0], size) == Ok([]);
    var a0 := ChunkAcc(xs[..0], size).value;
    assert a0 + [[xs[0]]] == [[xs[0]]];
  }

  /** A negative size puts the first element into chunk `-0`, which is chunk 0, and
      throws on the second, whose index is negative. */
  lemma ChunkAccNegative<T>(xs: seq<T>, size: int)
    requires size < 0
    ensures ChunkAcc(xs, size).Ok? <==> |xs| <= 1
    ensures |xs| == 1 ==> ChunkAcc(xs, size) == Ok([xs])
  {
    if |xs| > 0 {
      ChunkAccFirst(xs, size);
      if |xs| == 1 {
        assert xs[..1] == xs == [xs[0]];
      } else {
        assert xs[..2] == xs[..1] + [xs[1]];
        ChunkAccSnoc(xs[..1], xs[1], size);
        var second := SubIndex(1, size);
        assert second.Some? && second.value < 0;
        assert ChunkAcc(xs[..2], size).TypeError?;
        ChunkAccThrowsOnPrefix(xs, size, 2);
      }
    }
  }

  /** Every element of a chunk is an element of `xs`. */
  lemma {:induction false} ChunkAccMembers<T>(xs: seq<T>, size: int, j: nat, y: T)
    requires ChunkAcc(xs, size).Ok? && j < |ChunkAcc(xs, size).value|
    requires y in ChunkAcc(xs, size).value[j]
    ensures y in xs
    decreases |xs|
  {
    var init, x := xs[..|xs| - 1], xs[|xs| - 1];
    var acc := ChunkAcc(init, size).value;
    if j < |acc| && y in acc[j] {
      ChunkAccMembers(init, size, j, y);
      assert init <= xs;
    }
  }

  /** The reduction as a loop over `xs`. */
  method ChunkReduce<T>(xs: seq<T>, size: int) returns (r: Outcome<seq<seq<T>>>)
    ensures r == ChunkAcc(xs, size)
  {
    var acc: seq<seq<T>> := [];
    for ind := 0 to |xs|
      invariant ChunkAcc(xs[..ind], size) == Ok(acc)
    {
      assert xs[..ind + 1] == xs[..ind] + [xs[ind]];
      ChunkAccSnoc(xs[..ind], xs[ind], size);
      var subIndex := SubIndex(ind, size);
      if subIndex == Some(|acc|) {
        acc := acc + [[xs[ind]]];
      } else if subIndex.Some? && 0 <= subIndex.value < |acc| {
        acc := acc[subIndex.value := acc[subIndex.value] + [xs[ind]]];
      } else {
        ChunkAccThrowsOnPrefix(xs, size, ind + 1);
        return TypeError;
      }
    }
    assert xs[..|xs|] == xs;
    return Ok(acc);
  }
}
