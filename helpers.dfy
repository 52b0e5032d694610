/** The value helpers of the library: the predicate compiler behind `where`,
    dotted-path lookup, the default sort comparison, `range`, conversions between
    entry lists and objects, and the small callback combinators. */
module Helpers {
  import opened OrderedMaps
  import opened JsValues

  /** A callback `(value, key) => any` as the collection methods call it. It may
      throw, which the collection method then propagates. */
  type Callback = (Value, string) -> Outcome<Value>

  /** The entries `Object.entries(xs)` lists for an array: index names and elements. */
  function ArrayEntries(xs: seq<Value>): (es: seq<(string, Value)>)
    ensures |es| == |xs|
    ensures forall i :: 0 <= i < |xs| ==> es[i] == (NatToString(i), xs[i])
  {
    seq(|xs|, i requires 0 <= i < |xs| => (NatToString(i), xs[i]))
  }

  /** Different indices have different names, so an array's entries form an object. */
  lemma ArrayEntriesUnique(xs: seq<Value>)
    ensures UniqueKeys(ArrayEntries(xs))
  {
    forall i, j | 0 <= i < j < |xs| ensures NatToString(i) != NatToString(j) {
      NatToStringInjective(i, j);
    }
  }

  // ---------------------------------------------------------------------------
  // valueOf and toNumber

  /** A value `valueOf` is given: a plain value, or a function of no arguments. */
  datatype Lazy = Plain(v: Value) | Thunk(f: () -> Value)

  /** `valueOf(val)`: calls `val` when it is truthy and has a defined `call` member.
      Functions are called; a plain object with a defined `call` property is called
      as well, and calling a non-function throws. */
  function ValueOf(l: Lazy): (r: Outcome<Value>)
    ensures l.Thunk? ==> r == Ok(l.f())
    ensures l.Plain? && !l.v.Obj? ==> r == Ok(l.v)
    ensures l.Plain? && l.v.Obj? ==>
              (r.TypeError? <==> Lookup(l.v.fields, "call").Some? && Lookup(l.v.fields, "call").value != Undef)
    ensures r.Ok? && l.Plain? ==> r.value == l.v
  {
    match l
    case Thunk(f) => Ok(f())
    case Plain(v) =>
      assert v.Arr? ==> GetProp(v, "call") == Ok(Undef) by {
        assert "call" != "length" && !IsDigit('c');
      }
      if Truthy(v) && GetProp(v, "call") != Ok(Undef) then TypeError else Ok(v)
  }

  /** `toNumber(val)`, i.e. `parseFloat(val + '')`: the leading integer of the
      value's string form, or NaN. */
  function ToNumber(v: Value): (r: Value)
    ensures r.Num? || r.NaN?
    ensures r.Num? <==> ParseLeadingInt(ToStr(v)).Some?
  {
    match ParseLeadingInt(ToStr(v))
    case Some(n) => Num(n)
    case None => NaN
  }

  /** Numbers convert to themselves. */
  lemma ToNumberOfNum(n: int)
    ensures ToNumber(Num(n)) == Num(n)
  {
    ParseLeadingIntOfIntToString(n);
  }

  /** A string that starts with a decimal numeral converts to that number. */
  lemma ToNumberOfNumeral(n: int)
    ensures ToNumber(Str(IntToString(n))) == Num(n)
  {
    ParseLeadingIntOfIntToString(n);
  }

  // ---------------------------------------------------------------------------
  // Paths

  /** `p.split('.')`: the pieces between the dots; there is always at least one. */
  function Split(p: string): (r: seq<string>)
    ensures |r| >= 1
    decreases |p|
  {
    if |p| == 0 then [""]
    else
      var rest := Split(p[1..]);
      if p[0] == '.' then [""] + rest else [[p[0]] + rest[0]] + rest[1..]
  }

  /** No piece of a split holds a dot. */
  lemma {:induction false} SplitPiecesHaveNoDot(p: string)
    ensures forall i :: 0 <= i < |Split(p)| ==> '.' !in Split(p)[i]
    decreases |p|
  {
    if |p| > 0 {
      SplitPiecesHaveNoDot(p[1..]);
      var rest, r := Split(p[1..]), Split(p);
      if p[0] == '.' {
        assert forall i :: 1 <= i < |r| ==> r[i] == rest[i - 1];
      } else {
        assert r[0] == [p[0]] + rest[0];
        assert forall i :: 1 <= i < |r| ==> r[i] == rest[i];
      }
    }
  }

  /** `segs.join('.')`. */
  function JoinDots(segs: seq<string>): string
    decreases |segs|
  {
    if |segs| == 0 then ""
    else if |segs| == 1 then segs[0]
    else segs[0] + "." + JoinDots(segs[1..])
  }

  /** Joining the pieces of a split gives the path back. */
  lemma {:induction false} JoinDotsOfSplit(p: string)
    ensures JoinDots(Split(p)) == p
    decreases |p|
  {
    if |p| > 0 {
      JoinDotsOfSplit(p[1..]);
      var rest := Split(p[1..]);
      if p[0] == '.' {
        assert JoinDots(Split(p)) == "" + "." + JoinDots(rest);
      } else if |rest| == 1 {
        assert JoinDots(Split(p)) == [p[0]] + rest[0];
      } else {
        var r := Split(p);
        assert r[1..] == rest[1..];
        assert JoinDots(r) == [p[0]] + rest[0] + "." + JoinDots(rest[1..]);
      }
      assert p == [p[0]] + p[1..];
    }
  }

  /** A path without dots is a single piece. */
  lemma {:induction false} SplitNoDot(p: string)
    requires '.' !in p
    ensures Split(p) == [p]
    decreases |p|
  {
    if |p| > 0 {
      assert '.' !in p[1..] by {
        forall i | 0 <= i < |p[1..]| ensures p[1..][i] != '.' {
          assert p[1..][i] == p[i + 1];
        }
      }
      SplitNoDot(p[1..]);
      assert p == [p[0]] + p[1..];
    }
  }

  /** Splitting at a dot splits the two sides independently. */
  lemma {:induction false} SplitAppend(p: string, q: string)
    ensures Split(p + "." + q) == Split(p) + Split(q)
    decreases |p|
  {
    var x := p + "." + q;
    if |p| == 0 {
      assert x == ['.'] + q;
      SplitCons('.', q);
    } else {
      var c, t := p[0], p[1..];
      var y := t + "." + q;
      assert p == [c] + t;
      assert x == [c] + y;
      SplitAppend(t, q);
      SplitCons(c, t);
      SplitCons(c, y);
      PieceConsAppend(c, Split(t), Split(q));
    }
  }

  /** The pieces of a path with one more character in front. */
  function PieceCons(c: char, r: seq<string>): (u: seq<string>)
    requires |r| >= 1
    ensures |u| >= 1
  {
    if c == '.' then [""] + r else [[c] + r[0]] + r[1..]
  }

  /** Putting a character in front only touches the first piece. */
  lemma PieceConsAppend(c: char, r1: seq<string>, r2: seq<string>)
    requires |r1| >= 1
    ensures PieceCons(c, r1 + r2) == PieceCons(c, r1) + r2
  {
    if c != '.' {
      assert (r1 + r2)[0] == r1[0] && (r1 + r2)[1..] == r1[1..] + r2;
    }
  }

  /** One character in front of a path: a dot starts a new piece, any other
      character joins the first piece. */
  lemma SplitCons(c: char, t: string)
    ensures Split([c] + t) == PieceCons(c, Split(t))
  {
    assert ([c] + t)[0] == c && ([c] + t)[1..] == t;
  }

  /** `.filter(Boolean)` on the pieces: the empty ones are dropped. */
  function DropEmpty(segs: seq<string>): (r: seq<string>)
    ensures |r| <= |segs|
    ensures forall i :: 0 <= i < |r| ==> r[i] != "" && r[i] in segs
    decreases |segs|
  {
    if |segs| == 0 then []
    else if segs[0] == "" then DropEmpty(segs[1..])
    else [segs[0]] + DropEmpty(segs[1..])
  }

  lemma {:induction false} DropEmptyAppend(s: seq<string>, t: seq<string>)
    ensures DropEmpty(s + t) == DropEmpty(s) + DropEmpty(t)
    decreases |s|
  {
    if |s| > 0 {
      assert (s + t)[1..] == s[1..] + t;
      DropEmptyAppend(s[1..], t);
    } else {
      assert s + t == t;
    }
  }

  /** The segments a string key of `safeGet` denotes. */
  function PathSegments(path: string): seq<string>
  {
    DropEmpty(Split(path))
  }

  /** A doubled dot reads like a single one: `"a..b"` and `"a.b"` name the same
      path. */
  lemma DoubledDotIgnored(p: string, q: string)
    ensures PathSegments(p + ".." + q) == PathSegments(p + "." + q)
  {
    assert p + ".." + q == p + "." + ("." + q);
    SplitAppend(p, "." + q);
    SplitAppend(p, q);
    assert ("." + q)[1..] == q;
    assert Split("." + q) == [""] + Split(q);
    DropEmptyAppend(Split(p), [""] + Split(q));
    DropEmptyAppend(Split(p), Split(q));
  }

  /** Leading dots are ignored too. */
  lemma LeadingDotIgnored(p: string)
    ensures PathSegments("." + p) == PathSegments(p)
  {
    assert ("." + p)[1..] == p;
  }

  // ---------------------------------------------------------------------------
  // safeGet

  /** The `key` argument of `safeGet`: omitted, a dotted path, or a list of segments. */
  datatype Key = NoKey | Path(path: string) | Segments(segs: seq<string>)

  function SegmentsOf(key: Key): seq<string>
    requires !key.NoKey?
  {
    if key.Path? then PathSegments(key.path) else key.segs
  }

  /** What a single step of the traversal does: go into a value, stop at a missing
      one, or throw. */
  datatype Step = Into(next: Value) | Missing | Throws

  /** One segment of `safeGet`'s loop. Into an array the segment is read with
      `parseInt` and must be below the length (a negative index reads `undefined`);
      into anything else `target[segment]` must not be `undefined`, and throws when
      `target` is null or undefined. */
  function StepInto(target: Value, segment: string): (r: Step)
    ensures target.Arr? ==> !r.Throws?
    ensures target.Arr? ==>
              (r.Missing? <==> ParseInt(segment).None? || ParseInt(segment).value >= |target.elems|)
    ensures target.Arr? && r.Into? && ParseInt(segment).value >= 0 ==>
              r.next == target.elems[ParseInt(segment).value]
    ensures !target.Arr? ==> (r.Throws? <==> IsNullish(target))
    ensures !target.Arr? ==> (r.Missing? <==> GetProp(target, segment) == Ok(Undef))
    ensures !target.Arr? && r.Into? ==> GetProp(target, segment) == Ok(r.next)
  {
    if target.Arr? then
      match ParseInt(segment)
      case None => Missing
      case Some(k) =>
        if k < |target.elems| then Into(if k >= 0 then target.elems[k] else Undef) else Missing
    else
      match GetProp(target, segment)
      case TypeError => Throws
      case Ok(v) => if v.Undef? then Missing else Into(v)
  }

  /** Into an array, a `0x` segment is read in base 16, and a bare `0x` reads
      nothing. */
  lemma StepIntoHexSegment(xs: seq<Value>)
    ensures StepInto(Arr(xs), "0x10") == if |xs| > 16 then Into(xs[16]) else Missing
    ensures StepInto(Arr(xs), "0x") == Missing
  {
    ParseIntOfHex();
    ParseIntOfBarePrefix();
  }

  /** The whole traversal, segment by segment. */
  function Walk(target: Value, segs: seq<string>): Step
    decreases |segs|
  {
    if |segs| == 0 then Into(target)
    else
      match StepInto(target, segs[0])
      case Into(v) => Walk(v, segs[1..])
      case Missing => Missing
      case Throws => Throws
  }

  /** A traversal of `s1 + s2` is the traversal of `s1` followed, when that reached a
      value, by the traversal of `s2` from there. */
  lemma {:induction false} WalkAppend(t: Value, s1: seq<string>, s2: seq<string>)
    ensures Walk(t, s1).Into? ==> Walk(t, s1 + s2) == Walk(Walk(t, s1).next, s2)
    ensures !Walk(t, s1).Into? ==> Walk(t, s1 + s2) == Walk(t, s1)
    decreases |s1|
  {
    if |s1| == 0 {
      assert s1 + s2 == s2;
    } else {
      assert (s1 + s2)[0] == s1[0] && (s1 + s2)[1..] == s1[1..] + s2;
      match StepInto(t, s1[0])
      case Into(v) => WalkAppend(v, s1[1..], s2);
      case Missing =>
      case Throws =>
    }
  }

  /** `safeGet(target, key, defaultValue)`. With no key it is the target itself;
      otherwise the value the traversal reaches, passed through `valueOf`, or the
      default when a step finds nothing. */
  function SafeGetSpec(target: Value, key: Key, default: Value): (r: Outcome<Value>)
    ensures key.NoKey? ==> r == Ok(target)
    ensures !key.NoKey? && r.Ok? ==>
              r.value == default || (Walk(target, SegmentsOf(key)).Into? && r.value == Walk(target, SegmentsOf(key)).next)
    ensures !key.NoKey? && Walk(target, SegmentsOf(key)).Throws? ==> r.TypeError?
  {
    if key.NoKey? then Ok(target)
    else
      match Walk(target, SegmentsOf(key))
      case Into(v) => ValueOf(Plain(v))
      case Missing => Ok(default)
      case Throws => TypeError
  }

  /** `safeGet`: with a key, the traversal's value passed through `valueOf`, the
      default when a step finds nothing, and the throw of a step into null. */
  method SafeGet(target: Value, key: Key, default: Value) returns (r: Outcome<Value>)
    ensures r == SafeGetSpec(target, key, default)
  {
    if key.NoKey? {
      return Ok(target);
    }
    var reached := SafeGetWalk(target, SegmentsOf(key));
    match reached
    case Missing => r := Ok(default);
    case Throws => r := TypeError;
    case Into(t) => r := ValueOf(Plain(t));
  }

  /** The loop of `safeGet`, which reassigns `target` one segment at a time and
      stops at the first segment that finds nothing. */
  method SafeGetWalk(target: Value, segs: seq<string>) returns (reached: Step)
    ensures reached == Walk(target, segs)
  {
    var t := target;
    var i := 0;
    while i < |segs|
      invariant 0 <= i <= |segs|
      invariant Walk(target, segs) == Walk(t, segs[i..])
    {
      WalkAdvance(t, segs, i);
      var step := SafeGetStep(t, segs[i]);
      match step
      case Missing => return Missing;
      case Throws => return Throws;
      case Into(next) => t := next;
      i := i + 1;
    }
    assert segs[i..] == [];
    return Into(t);
  }

  /** One pass of the `safeGet` loop: an array is indexed by `parseInt` of the
      segment, anything else has the property read. */
  method SafeGetStep(t: Value, segment: string) returns (step: Step)
    ensures step == StepInto(t, segment)
  {
    if t.Arr? {
      var intKey := ParseInt(segment);
      if intKey.None? {
        return Missing;
      }
      if intKey.value < |t.elems| {
        return Into(if intKey.value >= 0 then t.elems[intKey.value] else Undef);
      }
      return Missing;
    }
    var got := GetProp(t, segment);
    if got.TypeError? {
      return Throws;
    }
    if got.value.Undef? {
      return Missing;
    }
    return Into(got.value);
  }

  /** The traversal from segment `i` is one step followed by the traversal from
      segment `i + 1`. */
  lemma WalkAdvance(t: Value, segs: seq<string>, i: nat)
    requires i < |segs|
    ensures StepInto(t, segs[i]).Into? ==> Walk(t, segs[i..]) == Walk(StepInto(t, segs[i]).next, segs[i + 1..])
    ensures !StepInto(t, segs[i]).Into? ==> Walk(t, segs[i..]) == StepInto(t, segs[i])
  {
    assert segs[i..][0] == segs[i] && segs[i..][1..] == segs[i + 1..];
  }

  /** Empty segments of a dotted key do not matter. */
  lemma SafeGetDoubledDot(target: Value, p: string, q: string, default: Value)
    ensures SafeGetSpec(target, Path(p + ".." + q), default) == SafeGetSpec(target, Path(p + "." + q), default)
  {
    DoubledDotIgnored(p, q);
  }

  /** A dotted key is the list of its non-empty segments. */
  lemma SafeGetPathIsSegments(target: Value, p: string, default: Value)
    ensures SafeGetSpec(target, Path(p), default) == SafeGetSpec(target, Segments(PathSegments(p)), default)
  {
  }

  /** A one-segment key on an object reads that field; a missing or undefined field
      gives the default. */
  lemma SafeGetField(fs: seq<(string, Value)>, k: string, default: Value)
    requires k != "" && '.' !in k
    ensures Lookup(fs, k).None? || Lookup(fs, k) == Some(Undef) ==> SafeGetSpec(Obj(fs), Path(k), default) == Ok(default)
    ensures Lookup(fs, k).Some? && Lookup(fs, k).value != Undef ==>
              SafeGetSpec(Obj(fs), Path(k), default) == ValueOf(Plain(Lookup(fs, k).value))
  {
    SplitNoDot(k);
    assert PathSegments(k) == [k];
    assert [k][0] == k && [k][1..] == [];
    match Lookup(fs, k)
    case None =>
    case Some(v) =>
      if v != Undef {
        assert StepInto(Obj(fs), k) == Into(v);
        assert Walk(Obj(fs), [k]) == Into(v);
      }
  }

  /** A path through nested values is resolved one prefix at a time. */
  lemma SafeGetNested(target: Value, s1: seq<string>, s2: seq<string>, default: Value)
    requires Walk(target, s1).Into?
    ensures SafeGetSpec(target, Segments(s1 + s2), default) == SafeGetSpec(Walk(target, s1).next, Segments(s2), default)
  {
    WalkAppend(target, s1, s2);
  }

  /** The three ways the traversal fails give the default: a segment into an array
      that does not read as an integer, an index not below the length, and a field
      an object does not have. */
  lemma SafeGetFailures(xs: seq<Value>, fs: seq<(string, Value)>, seg: string, rest: seq<string>, default: Value)
    ensures ParseInt(seg).None? ==> SafeGetSpec(Arr(xs), Segments([seg] + rest), default) == Ok(default)
    ensures ParseInt(seg).Some? && ParseInt(seg).value >= |xs| ==>
              SafeGetSpec(Arr(xs), Segments([seg] + rest), default) == Ok(default)
    ensures Lookup(fs, seg).None? ==> SafeGetSpec(Obj(fs), Segments([seg] + rest), default) == Ok(default)
  {
    WalkMissingHead(Arr(xs), seg, rest);
    WalkMissingHead(Obj(fs), seg, rest);
  }

  /** A first step that finds nothing ends the traversal with nothing. */
  lemma WalkMissingHead(t: Value, seg: string, rest: seq<string>)
    ensures StepInto(t, seg).Missing? ==> Walk(t, [seg] + rest) == Missing
  {
    assert ([seg] + rest)[0] == seg;
  }

  // ---------------------------------------------------------------------------
  // callbackForFilter

  /** The operators `callbackForFilter` understands. */
  datatype Operator =
    | Equal         // '=', '==' and anything unrecognised
    | NotEqual      // '!=', '<>'
    | Less          // '<'
    | Greater       // '>'
    | AtMost        // '<='
    | AtLeast       // '>='
    | Identical     // '==='
    | NotIdentical  // '!=='
    | Between       // 'between'
    | NotBetween    // 'not_between'
    | In            // 'in'
    | NotIn         // 'not_in'

  /** The `switch` on the operator: a string case matches only that exact string,
      and every other operator value falls to the default, loose equality. */
  function ParseOperator(op: Value): Operator
  {
    match op
    case Str(s) =>
      if s == "!=" || s == "<>" then NotEqual
      else if s == "<" then Less
      else if s == ">" then Greater
      else if s == "<=" then AtMost
      else if s == ">=" then AtLeast
      else if s == "===" then Identical
      else if s == "!==" then NotIdentical
      else if s == "between" then Between
      else if s == "not_between" then NotBetween
      else if s == "in" then In
      else if s == "not_in" then NotIn
      else Equal
    case _ => Equal
  }

  /** `s` occurs in `t` as a contiguous piece. */
  predicate IsSubstring(s: string, t: string)
    decreases |t|
  {
    s <= t || (|t| > 0 && IsSubstring(s, t[1..]))
  }

  /** `container.includes(x)`: membership for arrays (by SameValueZero), substring
      search for strings, and a TypeError for anything else. */
  function Includes(container: Value, x: Value): (r: Outcome<bool>)
    ensures r.TypeError? <==> !container.Arr? && !container.Str?
    ensures container.Arr? ==> r == Ok(exists i :: 0 <= i < |container.elems| && SameValueZero(container.elems[i], x))
  {
    match container
    case Arr(xs) => Ok(x in xs)
    case Str(s) => Ok(IsSubstring(ToStr(x), s))
    case _ => TypeError
  }

  function NotOutcome(o: Outcome<bool>): Outcome<bool>
  {
    match o
    case Ok(b) => Ok(!b)
    case TypeError => TypeError
  }

  /** What the compiled predicate computes from the retrieved value and the operand. */
  function Holds(op: Operator, retrieved: Value, operand: Value): Outcome<bool>
  {
    match op
    case Equal => Ok(LooseEq(retrieved, operand))
    case NotEqual => Ok(!LooseEq(retrieved, operand))
    case Less => Ok(JsLt(retrieved, operand))
    case Greater => Ok(JsGt(retrieved, operand))
    case AtMost => Ok(JsLe(retrieved, operand))
    case AtLeast => Ok(JsGe(retrieved, operand))
    case Identical => Ok(StrictEq(retrieved, operand))
    case NotIdentical => Ok(!StrictEq(retrieved, operand))
    case Between =>
      (match (GetProp(operand, "0"), GetProp(operand, "1"))
       case (Ok(lo), Ok(hi)) => Ok(JsLe(lo, retrieved) && JsLe(retrieved, hi))
       case _ => TypeError)
    case NotBetween =>
      (match (GetProp(operand, "0"), GetProp(operand, "1"))
       case (Ok(lo), Ok(hi)) => Ok(JsLt(retrieved, lo) || JsGt(retrieved, hi))
       case _ => TypeError)
    case In => Includes(operand, retrieved)
    case NotIn => NotOutcome(Includes(operand, retrieved))
  }

  /** The `key` argument of `callbackForFilter`: a field path, or a ready callback. */
  datatype FilterKey = Field(path: string) | Given(callback: Callback)

  /** The predicate `callbackForFilter` returns: the given callback, or a comparison
      of the field at `path` against `operand`. */
  datatype Compiled = Custom(callback: Callback) | Compare(path: string, op: Operator, operand: Value)

  /** `callbackForFilter(key, operator, value)`, omitted arguments being `undefined`. */
  function CallbackForFilter(key: FilterKey, operator: Value, value: Value): (f: Compiled)
    ensures key.Given? <==> f.Custom?
    ensures key.Given? ==> f.callback == key.callback
    ensures key.Field? ==> f.path == key.path
  {
    match key
    case Given(cb) => Custom(cb)
    case Field(path) =>
      if operator.Undef? && value.Undef? then Compare(path, Equal, Bool(true))
      else if value.Undef? then Compare(path, Equal, operator)
      else Compare(path, ParseOperator(operator), value)
  }

  /** Calling the compiled predicate on a value and its key. A comparison reads the
      field with `safeGet` (no default) and yields a boolean. */
  function Apply(f: Compiled, v: Value, k: string): Outcome<Value>
  {
    match f
    case Custom(cb) => cb(v, k)
    case Compare(path, op, operand) =>
      match SafeGetSpec(v, Path(path), Undef)
      case TypeError => TypeError
      case Ok(retrieved) =>
        match Holds(op, retrieved, operand)
        case TypeError => TypeError
        case Ok(b) => Ok(Bool(b))
  }

  /** The compiled predicate as a callback. */
  function AsCallback(f: Compiled): (cb: Callback)
    ensures forall v, k :: cb(v, k) == Apply(f, v, k)
  {
    (v, k) => Apply(f, v, k)
  }

  /** With neither operator nor value the predicate is `retrieved == true`. */
  lemma DefaultIsLooseTrue(path: string, v: Value, k: string)
    ensures Apply(CallbackForFilter(Field(path), Undef, Undef), v, k)
         == Apply(CallbackForFilter(Field(path), Str("="), Bool(true)), v, k)
  {
  }

  /** With only an operator, the operator is the value and the comparison is `=`. */
  lemma OperatorAloneIsValue(path: string, x: Value)
    requires !x.Undef?
    ensures CallbackForFilter(Field(path), x, Undef) == CallbackForFilter(Field(path), Str("="), x)
  {
  }

  /** Any operator the switch does not list behaves as `=`, loose equality. */
  lemma UnknownOperatorIsEqual(op: Value, retrieved: Value, operand: Value)
    requires !op.Str? || op.s !in ["!=", "<>", "<", ">", "<=", ">=", "===", "!==", "between", "not_between", "in", "not_in"]
    ensures ParseOperator(op) == Equal
    ensures Holds(ParseOperator(op), retrieved, operand) == Ok(LooseEq(retrieved, operand))
  {
    assert ParseOperator(op) == Equal;
    HoldsEqual(retrieved, operand);
  }

  /** `=` is loose equality and never throws. */
  lemma HoldsEqual(retrieved: Value, operand: Value)
    ensures Holds(Equal, retrieved, operand) == Ok(LooseEq(retrieved, operand))
  {
  }

  /** `in` and `not_in` are complements, and throw on the same operands. */
  lemma InNotInComplement(retrieved: Value, operand: Value)
    ensures Holds(NotIn, retrieved, operand).Ok? <==> Holds(In, retrieved, operand).Ok?
    ensures Holds(NotIn, retrieved, operand).Ok? ==>
              Holds(NotIn, retrieved, operand).value == !Holds(In, retrieved, operand).value
  {
  }

  /** `between` includes both bounds and `not_between` excludes them; on numbers
      they are exact complements. */
  lemma BetweenOnNumbers(x: int, lo: int, hi: int)
    ensures Holds(Between, Num(x), Arr([Num(lo), Num(hi)])) == Ok(lo <= x <= hi)
    ensures Holds(NotBetween, Num(x), Arr([Num(lo), Num(hi)])) == Ok(x < lo || x > hi)
  {
    GetPropOfElement([Num(lo), Num(hi)], 0);
    GetPropOfElement([Num(lo), Num(hi)], 1);
    assert NatToString(0) == "0" && NatToString(1) == "1";
  }

  /** `between` reads the bounds as `value[0]` and `value[1]`, so a null or undefined
      range throws. */
  lemma BetweenNeedsRange(retrieved: Value, operand: Value)
    ensures IsNullish(operand) ==> Holds(Between, retrieved, operand).TypeError?
    ensures IsNullish(operand) ==> Holds(NotBetween, retrieved, operand).TypeError?
  {
  }

  // ---------------------------------------------------------------------------
  // range, entries, equality, negate, iterate

  /** `range(start, end)`: the consecutive integers from the smaller bound to the
      larger one, both included. */
  function RangeItems(start: int, end: int): (r: seq<Value>)
    ensures var lo, hi := if start <= end then start else end, if start <= end then end else start;
            |r| == hi - lo + 1 && forall i :: 0 <= i < |r| ==> r[i] == Num(lo + i)
  {
    var lo, hi := if start <= end then start else end, if start <= end then end else start;
    seq(hi - lo + 1, i requires 0 <= i < hi - lo + 1 => Num(lo + i))
  }

  /** The order of the bounds does not matter. */
  lemma RangeSymmetric(start: int, end: int)
    ensures RangeItems(start, end) == RangeItems(end, start)
  {
  }

  /** The loop of `range`, pushing `from`, `from + 1`, ..., `to`; the result is what
      the returned collection holds. */
  method Range(start: int, end: int) returns (items: seq<Value>)
    ensures items == RangeItems(start, end)
  {
    var from := if start <= end then start else end;
    var to := if start <= end then end else start;
    items := [];
    var i := from;
    while i <= to
      invariant from <= i <= to + 1
      invariant |items| == i - from
      invariant forall j :: 0 <= j < |items| ==> items[j] == Num(from + j)
    {
      items := items + [Num(i)];
      i := i + 1;
    }
  }

  /** `entriesToArray(entries)`: the values, in order. */
  function EntriesToArray(entries: seq<(string, Value)>): (r: seq<Value>)
    ensures |r| == |entries|
    ensures forall i :: 0 <= i < |r| ==> r[i] == entries[i].1
  {
    Vals(entries)
  }

  /** Round trip: the values of an array's entries are the array. */
  lemma EntriesToArrayOfArrayEntries(xs: seq<Value>)
    ensures EntriesToArray(ArrayEntries(xs)) == xs
  {
  }

  /** `entriesToObject(entries)`: assigns each entry into a fresh object in turn, so
      a repeated key keeps its first position and its last value. */
  method EntriesToObject(entries: seq<(string, Value)>) returns (result: seq<(string, Value)>)
    ensures result == FromEntries(entries)
  {
    result := [];
    for i := 0 to |entries|
      invariant result == SetAll([], entries[..i])
    {
      assert entries[..i + 1][..i] == entries[..i];
      result := Set(result, entries[i].0, entries[i].1);
    }
    assert entries[..|entries|] == entries;
  }

  /** `equality(value)`: the predicate `item === value`. */
  function Equality(value: Value): (p: Value -> bool)
    ensures forall item :: p(item) <==> StrictEq(item, value)
  {
    item => StrictEq(item, value)
  }

  /** Every value is identical to itself except NaN. */
  lemma EqualityReflexive(value: Value)
    ensures Equality(value)(value) <==> !value.NaN?
  {
  }

  /** `negate(callback)`: the callback with its result's truthiness flipped;
      a throwing callback still throws. */
  function Negate(cb: Callback): (r: Callback)
    ensures forall v, k :: r(v, k).TypeError? <==> cb(v, k).TypeError?
    ensures forall v, k :: r(v, k).Ok? ==> r(v, k).value == Bool(!Truthy(cb(v, k).value))
  {
    (v, k) => match cb(v, k)
              case Ok(x) => Ok(Bool(!Truthy(x)))
              case TypeError => TypeError
  }

  /** Negating twice gives back the callback's truthiness. */
  lemma NegateTwice(cb: Callback, v: Value, k: string)
    ensures Negate(Negate(cb))(v, k).Ok? <==> cb(v, k).Ok?
    ensures cb(v, k).Ok? ==> (Truthy(Negate(Negate(cb))(v, k).value) <==> Truthy(cb(v, k).value))
  {
  }

  /** The calls `iterate(values, callback)` makes, as (key, value) pairs: once for
      each entry of the array and once more for each of its own keys. The first pass
      passes numeric indices and the second their names, which are the same
      property key. */
  function IterateCalls(vs: seq<Value>): (calls: seq<(string, Value)>)
    ensures |calls| == 2 * |vs|
    ensures forall i :: 0 <= i < |vs| ==> calls[i] == (NatToString(i), vs[i])
    ensures forall i :: 0 <= i < |vs| ==> calls[|vs| + i] == (NatToString(i), vs[i])
  {
    ArrayEntries(vs) + ArrayEntries(vs)
  }
}
