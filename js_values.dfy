/** The JavaScript values the collection library handles, and the parts of the
    language's conversion and comparison rules its helpers depend on: `String(v)`,
    `parseFloat`/`parseInt`, truthiness, `==`, `===`, `<`, property reads and `+`. */
module JsValues {
  import opened OrderedMaps

  /** The result of an expression that may throw. The only exception the modelled
      code can raise on data is a TypeError. */
  datatype Outcome<T> = Ok(value: T) | TypeError

  /** Numbers are integers here, with NaN the one non-finite number kept. Objects
      are their own enumerable properties in enumeration order. */
  datatype Value =
    | Undef
    | Null
    | Bool(b: bool)
    | Num(n: int)
    | NaN
    | Str(s: string)
    | Arr(elems: seq<Value>)
    | Obj(fields: seq<(string, Value)>)

  predicate IsNullish(v: Value)
  {
    v.Undef? || v.Null?
  }

  /** `Boolean(v)`, the test behind `if (v)` and `filter`'s default callback. */
  predicate Truthy(v: Value)
  {
    match v
    case Bool(b) => b
    case Num(n) => n != 0
    case Str(s) => s != ""
    case Arr(_) => true
    case Obj(_) => true
    case _ => false
  }

  // ---------------------------------------------------------------------------
  // Decimal numerals

  predicate IsDigit(c: char)
  {
    '0' <= c <= '9'
  }

  predicate AllDigits(s: string)
  {
    forall i :: 0 <= i < |s| ==> IsDigit(s[i])
  }

  function DigitChar(d: nat): char
    requires d < 10
  {
    ('0' as int + d) as char
  }

  /** A natural number in decimal, as `Number.prototype.toString` writes it. */
  function NatToString(n: nat): (r: string)
    ensures |r| > 0 && AllDigits(r)
    ensures r[0] == '0' <==> n == 0
    decreases n
  {
    if n < 10 then [DigitChar(n)] else NatToString(n / 10) + [DigitChar(n % 10)]
  }

  /** The value of a run of decimal digits. */
  function DigitsValue(s: string): nat
    requires AllDigits(s)
    decreases |s|
  {
    if |s| == 0 then 0 else 10 * DigitsValue(s[..|s| - 1]) + (s[|s| - 1] as int - '0' as int)
  }

  lemma {:induction false} DigitsValueOfNatToString(n: nat)
    ensures DigitsValue(NatToString(n)) == n
    decreases n
  {
    if n >= 10 {
      DigitsValueOfNatToString(n / 10);
      var r := NatToString(n);
      assert r[..|r| - 1] == NatToString(n / 10);
    }
  }

  lemma NatToStringInjective(m: nat, n: nat)
    ensures NatToString(m) == NatToString(n) ==> m == n
  {
    DigitsValueOfNatToString(m);
    DigitsValueOfNatToString(n);
  }

  function IntToString(n: int): string
  {
    if n < 0 then "-" + NatToString(-n) else NatToString(n)
  }

  /** `String(v)`, also what `v + ''` and using `v` as a property name produce. */
  function ToStr(v: Value): string
  {
    match v
    case Undef => "undefined"
    case Null => "null"
    case Bool(b) => if b then "true" else "false"
    case Num(n) => IntToString(n)
    case NaN => "NaN"
    case Str(s) => s
    case Arr(xs) => Join(seq(|xs|, i requires 0 <= i < |xs| => if IsNullish(xs[i]) then "" else ToStr(xs[i])))
    case Obj(_) => "[object Object]"
  }

  /** `parts.join(',')`. */
  function Join(parts: seq<string>): string
  {
    if |parts| == 0 then ""
    else if |parts| == 1 then parts[0]
    else Join(parts[..|parts| - 1]) + "," + parts[|parts| - 1]
  }

  /** `v.toString()`: the same string as `String(v)`, but it throws on null and
      undefined, which have no methods. */
  function ToStringCall(v: Value): (r: Outcome<string>)
    ensures r.TypeError? <==> IsNullish(v)
    ensures r.Ok? ==> r.value == ToStr(v)
  {
    if IsNullish(v) then TypeError else Ok(ToStr(v))
  }

  // ---------------------------------------------------------------------------
  // Reading numbers from strings

  /** The white space `parseFloat`, `parseInt` and `Number` skip: the standard's
      white space (tab, vertical tab, form feed, space, no-break space, the byte
      order mark and every other space separator of Unicode category Zs) and its
      line terminators (line feed, carriage return, U+2028 and U+2029). */
  predicate IsSpace(c: char)
  {
    if c < '\U{A0}' then c == ' ' || '\t' <= c <= '\r' else IsWideSpace(c)
  }

  /** The white space above the ASCII range. */
  predicate IsWideSpace(c: char)
  {
    || c == '\U{A0}' || c == '\U{1680}' || ('\U{2000}' <= c <= '\U{200A}')
    || c == '\U{2028}' || c == '\U{2029}' || c == '\U{202F}' || c == '\U{205F}'
    || c == '\U{3000}' || c == '\U{FEFF}'
  }

  function TrimStart(s: string): (r: string)
    ensures |r| <= |s| && r == s[|s| - |r|..]
    ensures |r| > 0 ==> !IsSpace(r[0])
    decreases |s|
  {
    if |s| > 0 && IsSpace(s[0]) then TrimStart(s[1..]) else s
  }

  function TrimEnd(s: string): (r: string)
    ensures |r| <= |s| && r == s[..|r|]
    ensures |r| > 0 ==> !IsSpace(r[|r| - 1])
    decreases |s|
  {
    if |s| > 0 && IsSpace(s[|s| - 1]) then TrimEnd(s[..|s| - 1]) else s
  }

  /** The number of decimal digits at the front of `s`. */
  function LeadingDigits(s: string): (k: nat)
    ensures k <= |s| && AllDigits(s[..k])
    ensures k < |s| ==> !IsDigit(s[k])
    decreases |s|
  {
    if |s| > 0 && IsDigit(s[0]) then
      var k := 1 + LeadingDigits(s[1..]);
      assert s[..k] == [s[0]] + s[1..][..k - 1];
      k
    else 0
  }

  lemma {:induction false} LeadingDigitsOfDigits(s: string)
    requires AllDigits(s)
    ensures LeadingDigits(s) == |s|
    decreases |s|
  {
    if |s| > 0 {
      LeadingDigitsOfDigits(s[1..]);
    }
  }

  /** A leading sign: `-1` or `1`, and what follows it. */
  function SplitSign(t: string): (int, string)
  {
    if |t| > 0 && t[0] == '-' then (-1, t[1..])
    else if |t| > 0 && t[0] == '+' then (1, t[1..])
    else (1, t)
  }

  /** The integer `parseFloat(s)` and `parseInt(s)` read from the front of `s`:
      after white space, an optional sign and at least one digit; `None` where
      they return NaN. */
  function ParseLeadingInt(s: string): (r: Option<int>)
    ensures r.None? <==> LeadingDigits(SplitSign(TrimStart(s)).1) == 0
  {
    var (sign, body) := SplitSign(TrimStart(s));
    var k := LeadingDigits(body);
    if k == 0 then None else Some(sign * DigitsValue(body[..k]))
  }

  /** Round trip: reading back the decimal form of an integer gives the integer. */
  lemma ParseLeadingIntOfIntToString(n: int)
    ensures ParseLeadingInt(IntToString(n)) == Some(n)
  {
    var m: nat := if n < 0 then -n else n;
    var sign, digits := NumeralParts(n);
    LeadingDigitsOfDigits(digits);
    assert digits[..|digits|] == digits;
    DigitsValueOfNatToString(m);
  }

  /** The decimal form of `n` starts with no white space and splits into the sign
      of `n` and the digits of its magnitude. */
  lemma NumeralParts(n: int) returns (sign: int, digits: string)
    ensures digits == NatToString(if n < 0 then -n else n)
    ensures sign == if n < 0 then -1 else 1
    ensures TrimStart(IntToString(n)) == IntToString(n)
    ensures SplitSign(IntToString(n)) == (sign, digits)
  {
    digits := NatToString(if n < 0 then -n else n);
    sign := if n < 0 then -1 else 1;
    NumeralSplit(IntToString(n), sign, digits);
  }

  lemma NumeralSplit(s: string, sign: int, digits: string)
    requires |digits| > 0 && AllDigits(digits)
    requires (sign == -1 && s == "-" + digits) || (sign == 1 && s == digits)
    ensures TrimStart(s) == s
    ensures SplitSign(s) == (sign, digits)
  {
    var d := digits[0];
    assert IsDigit(d);
    if sign == -1 {
      assert s[0] == '-' && s[1..] == digits;
      SignedStart(s, '-');
    } else {
      assert s[0] == d;
      SignedStart(s, d);
    }
  }

  /** A string starting with a sign or a digit has no white space to trim. */
  lemma SignedStart(s: string, c: char)
    requires |s| > 0 && s[0] == c && (c == '-' || IsDigit(c))
    ensures TrimStart(s) == s
    ensures SplitSign(s) == if c == '-' then (-1, s[1..]) else (1, s)
  {
  }

  // ---------------------------------------------------------------------------
  // Numerals in other bases

  /** The value of `c` as a digit of base `radix`: `0`-`9`, then the letters from
      10 in either case; `None` when that value is not below `radix`. */
  function DigitIn(c: char, radix: nat): (r: Option<nat>)
    ensures r.Some? ==> r.value < radix
    ensures radix == 16 ==> (r.Some? <==> IsDigit(c) || 'a' <= c <= 'f' || 'A' <= c <= 'F')
  {
    var d: int :=
      if '0' <= c <= '9' then c as int - '0' as int
      else if 'a' <= c <= 'z' then c as int - 'a' as int + 10
      else if 'A' <= c <= 'Z' then c as int - 'A' as int + 10
      else radix;
    if d < radix then Some(d) else None
  }

  predicate AllDigitsIn(s: string, radix: nat)
  {
    forall i :: 0 <= i < |s| ==> DigitIn(s[i], radix).Some?
  }

  /** The number of base-`radix` digits at the front of `s`. */
  function LeadingDigitsIn(s: string, radix: nat): (k: nat)
    ensures k <= |s| && AllDigitsIn(s[..k], radix)
    ensures k < |s| ==> DigitIn(s[k], radix).None?
    decreases |s|
  {
    if |s| > 0 && DigitIn(s[0], radix).Some? then
      var k := 1 + LeadingDigitsIn(s[1..], radix);
      assert s[..k] == [s[0]] + s[1..][..k - 1];
      k
    else 0
  }

  /** The value of a run of base-`radix` digits. */
  function ValueIn(s: string, radix: nat): nat
    requires AllDigitsIn(s, radix)
    decreases |s|
  {
    if |s| == 0 then 0
    else
      radix * ValueIn(s[..|s| - 1], radix) + DigitIn(s[|s| - 1], radix).value
  }

  /** A `0x` or `0X` prefix, which makes `parseInt` read base 16. */
  predicate HasHexPrefix(body: string)
  {
    |body| >= 2 && body[0] == '0' && (body[1] == 'x' || body[1] == 'X')
  }

  /** `parseInt(s)` with no radix: after white space and an optional sign, a `0x`
      or `0X` prefix selects base 16 and anything else base 10; NaN (`None`) when
      no digit of that base follows. Unlike `parseFloat`, it reads `"0x10"` as 16. */
  function ParseInt(s: string): (r: Option<int>)
    ensures !HasHexPrefix(SplitSign(TrimStart(s)).1) ==> r == ParseLeadingInt(s)
  {
    var (sign, body) := SplitSign(TrimStart(s));
    if HasHexPrefix(body) then
      match LeadingHex(body[2..])
      case None => None
      case Some(n) => Some(sign * n)
    else ParseLeadingInt(s)
  }

  /** The value of the hex digits at the front of `digits`, `None` when there are none. */
  function LeadingHex(digits: string): Option<nat>
  {
    var k := LeadingDigitsIn(digits, 16);
    if k == 0 then None else Some(ValueIn(digits[..k], 16))
  }

  /** After a hex prefix, `parseInt` is NaN exactly when no hex digit follows it,
      and otherwise the signed value of the hex digits that do. */
  lemma ParseIntOfHexPrefix(s: string)
    requires HasHexPrefix(SplitSign(TrimStart(s)).1)
    ensures var (sign, body) := SplitSign(TrimStart(s));
            var k := LeadingDigitsIn(body[2..], 16);
            && (ParseInt(s).None? <==> k == 0)
            && (k > 0 ==> ParseInt(s) == Some(sign * ValueIn(body[2..][..k], 16)))
  {
  }

  /** The decimal form of an integer never has a hex prefix, so `parseInt` reads
      it back as `parseFloat` does. */
  lemma ParseIntOfIntToString(n: int)
    ensures ParseInt(IntToString(n)) == Some(n)
  {
    var sign, digits := NumeralParts(n);
    assert !HasHexPrefix(digits) by {
      if |digits| >= 2 {
        assert IsDigit(digits[1]);
      }
    }
    ParseLeadingIntOfIntToString(n);
  }

  /** A string starting with neither white space nor a sign is read as it stands. */
  lemma PlainStart(s: string)
    requires |s| > 0 && !IsSpace(s[0]) && s[0] != '-' && s[0] != '+'
    ensures TrimStart(s) == s && SplitSign(s) == (1, s)
  {
  }

  /** Both parsers skip a leading white-space character. */
  lemma SkipSpace(s: string)
    requires |s| > 0 && IsSpace(s[0])
    ensures ParseLeadingInt(s) == ParseLeadingInt(s[1..]) && ParseInt(s) == ParseInt(s[1..])
  {
    assert TrimStart(s) == TrimStart(s[1..]);
  }

  /** Two decimal digits, then the end or a non-digit: a two-digit numeral. */
  lemma LeadingTwoDigits(s: string)
    requires |s| >= 2 && IsDigit(s[0]) && IsDigit(s[1]) && (|s| == 2 || !IsDigit(s[2]))
    ensures LeadingDigits(s) == 2 && AllDigits(s[..2])
    ensures DigitsValue(s[..2]) == 10 * (s[0] as int - '0' as int) + (s[1] as int - '0' as int)
  {
    LeadingDigitsOfTwo(s);
    var two := s[..2];
    var one := two[..1];
    assert one == [s[0]] && one[..0] == [] && two[1] == s[1];
    assert DigitsValue(one) == s[0] as int - '0' as int;
  }

  lemma LeadingDigitsOfTwo(s: string)
    requires |s| >= 2 && IsDigit(s[0]) && IsDigit(s[1]) && (|s| == 2 || !IsDigit(s[2]))
    ensures LeadingDigits(s) == 2
  {
    var rest := s[1..][1..];
    assert |rest| == |s| - 2;
    assert |rest| > 0 ==> rest[0] == s[2];
    assert LeadingDigits(rest) == 0;
    assert s[1..][0] == s[1];
    assert LeadingDigits(s[1..]) == 1;
  }

  /** Two digits of base `radix` read as one number. */
  lemma LeadingTwoDigitsIn(d: string, radix: nat)
    requires |d| == 2 && DigitIn(d[0], radix).Some? && DigitIn(d[1], radix).Some?
    ensures LeadingDigitsIn(d, radix) == 2 && d[..2] == d && AllDigitsIn(d, radix)
    ensures ValueIn(d, radix) == radix * DigitIn(d[0], radix).value + DigitIn(d[1], radix).value
  {
    assert d[1..][1..] == [];
    assert LeadingDigitsIn(d[1..][1..], radix) == 0;
    assert LeadingDigitsIn(d[1..], radix) == 1;
    var init := d[..1];
    assert init[..0] == [] && init[0] == d[0];
    assert ValueIn(init, radix) == DigitIn(d[0], radix).value;
  }

  /** A `0` followed by a non-digit is 0 for `parseFloat`. */
  lemma LeadingZero(s: string)
    requires |s| >= 2 && s[0] == '0' && !IsDigit(s[1])
    ensures ParseLeadingInt(s) == Some(0)
  {
    PlainStart(s);
    assert s[1..][0] == s[1];
    assert LeadingDigits(s[1..]) == 0;
    assert LeadingDigits(s) == 1;
    var zero := s[..1];
    assert zero[..0] == [] && zero[0] == '0';
    assert DigitsValue(zero) == 0;
  }

  /** `parseInt` reads a hex prefix where `parseFloat` stops at the `x`. */
  lemma ParseIntOfHex()
    ensures ParseInt("0x10") == Some(16) && ParseLeadingInt("0x10") == Some(0)
  {
    var s := "0x10";
    PlainStart(s);
    assert HasHexPrefix(s) && s[2..] == "10";
    LeadingTwoDigitsIn("10", 16);
    LeadingZero(s);
  }

  /** A sign comes before the prefix, and the digits may be of either case. */
  lemma ParseIntOfSignedHex()
    ensures ParseInt("-0X1f") == Some(-31)
  {
    var s := "-0X1f";
    assert TrimStart(s) == s && SplitSign(s) == (-1, s[1..]);
    var body := s[1..];
    assert body == "0X1f" && HasHexPrefix(body) && body[2..] == "1f";
    LeadingTwoDigitsIn("1f", 16);
  }

  /** A bare prefix is NaN for `parseInt` and 0 for `parseFloat`. */
  lemma ParseIntOfBarePrefix()
    ensures ParseInt("0x") == None && ParseLeadingInt("0x") == Some(0)
  {
    var s := "0x";
    PlainStart(s);
    assert HasHexPrefix(s) && s[2..] == "";
    assert LeadingDigitsIn("", 16) == 0;
    LeadingZero(s);
  }

  /** Leading white space is skipped and reading stops at the first non-digit. */
  lemma ParseIntOfDecimalPrefix()
    ensures ParseInt(" 42px") == Some(42)
  {
    var s, t := " 42px", "42px";
    SkipSpace(s);
    assert s[1..] == t;
    ParseOfFortyTwo(t);
  }

  lemma ParseOfFortyTwo(t: string)
    requires t == "42px"
    ensures ParseInt(t) == Some(42)
  {
    PlainStart(t);
    assert !HasHexPrefix(t);
    LeadingTwoDigits(t);
    assert t[..2] == "42";
  }

  /** The base a `0x`, `0o` or `0b` prefix selects in a numeric string, in either
      case; 0 after any other character. */
  function PrefixRadix(c: char): nat
  {
    if c == 'x' || c == 'X' then 16
    else if c == 'o' || c == 'O' then 8
    else if c == 'b' || c == 'B' then 2
    else 0
  }

  /** `Number(s)` (the conversion `==` and `<` apply to strings): the whole string,
      white space trimmed, must be an optionally signed run of decimal digits or
      an unsigned `0x`, `0o` or `0b` literal with at least one digit, and the
      blank string is 0. */
  function StringToNumber(s: string): Option<int>
  {
    TrimmedToNumber(TrimEnd(TrimStart(s)))
  }

  /** `Number` on a string already stripped of white space at both ends. */
  function TrimmedToNumber(t: string): Option<int>
  {
    if t == "" then Some(0)
    else if |t| >= 2 && t[0] == '0' && PrefixRadix(t[1]) > 0 then
      var digits := t[2..];
      if |digits| > 0 && AllDigitsIn(digits, PrefixRadix(t[1])) then Some(ValueIn(digits, PrefixRadix(t[1])))
      else None
    else
      var (sign, body) := SplitSign(t);
      if |body| > 0 && AllDigits(body) then Some(sign * DigitsValue(body)) else None
  }

  lemma StringToNumberOfIntToString(n: int)
    ensures StringToNumber(IntToString(n)) == Some(n)
  {
    var s := IntToString(n);
    var sign, digits := NumeralParts(n);
    assert s[|s| - 1] == digits[|digits| - 1];
    assert !IsSpace(s[|s| - 1]) by {
      assert IsDigit(digits[|digits| - 1]);
    }
    assert TrimEnd(s) == s;
    assert s[0] == '0' ==> |s| == 1;
    DigitsValueOfNatToString(if n < 0 then -n else n);
  }

  /** A string that does not end in white space keeps its end. */
  lemma NoTrailingSpace(t: string)
    requires |t| > 0 && !IsSpace(t[|t| - 1])
    ensures TrimEnd(t) == t
  {
  }

  /** `Number` reads non-decimal literals with at least one digit. */
  lemma StringToNumberOfPrefixed()
    ensures StringToNumber("0x10") == Some(16)
    ensures StringToNumber("0x") == None
  {
    var s := "0x10";
    PlainStart(s);
    NoTrailingSpace(s);
    assert PrefixRadix(s[1]) == 16 && s[2..] == "10";
    LeadingTwoDigitsIn("10", 16);
    var e := "0x";
    PlainStart(e);
    NoTrailingSpace(e);
    assert PrefixRadix(e[1]) == 16 && e[2..] == "";
  }

  /** White space around a binary literal is trimmed. */
  lemma StringToNumberOfPaddedBinary()
    ensures StringToNumber(" 0b11\n") == Some(3)
  {
    var s, u := " 0b11\n", "0b11";
    PaddedBinaryTrims(s, u);
    BinaryEleven(u);
    SameTrimmed(s, u);
  }

  /** `Number` depends only on the trimmed string. */
  lemma SameTrimmed(s: string, u: string)
    requires TrimEnd(TrimStart(s)) == u && TrimEnd(TrimStart(u)) == u
    ensures StringToNumber(s) == StringToNumber(u)
  {
  }

  lemma PaddedBinaryTrims(s: string, u: string)
    requires s == " 0b11\n" && u == "0b11"
    ensures TrimEnd(TrimStart(s)) == u
  {
    var t := s[1..];
    assert t == "0b11\n" && IsSpace(s[0]);
    assert TrimStart(s) == TrimStart(t);
    PlainStart(t);
    assert t[..|t| - 1] == u && IsSpace(t[|t| - 1]);
    assert TrimEnd(t) == TrimEnd(u);
    NoTrailingSpace(u);
  }

  lemma BinaryEleven(u: string)
    requires u == "0b11"
    ensures TrimEnd(TrimStart(u)) == u && StringToNumber(u) == Some(3)
  {
    PlainStart(u);
    NoTrailingSpace(u);
    assert PrefixRadix(u[1]) == 2 && u[2..] == "11";
    LeadingTwoDigitsIn("11", 2);
  }

  /** A sign is not allowed before a non-decimal literal. */
  lemma StringToNumberOfSignedHex()
    ensures StringToNumber("-0x10") == None
  {
    var s := "-0x10";
    assert TrimStart(s) == s;
    NoTrailingSpace(s);
    assert SplitSign(s) == (-1, s[1..]);
    assert !IsDigit(s[1..][1]);
  }

  /** The canonical array index a property name denotes, if any: "0", "1", ...,
      with no leading zero. */
  function ArrayIndex(key: string): (r: Option<nat>)
  {
    if |key| > 0 && AllDigits(key) && (|key| == 1 || key[0] != '0') then Some(DigitsValue(key)) else None
  }

  lemma ArrayIndexOfNatToString(i: nat)
    ensures ArrayIndex(NatToString(i)) == Some(i)
  {
    DigitsValueOfNatToString(i);
  }

  /** The property names of an array's elements are exactly the canonical decimal
      numerals of its indices. */
  lemma ArrayIndexIsCanonical(key: string)
    requires ArrayIndex(key).Some?
    ensures NatToString(ArrayIndex(key).value) == key
  {
    var i := ArrayIndex(key).value;
    CanonicalDigits(key);
  }

  lemma {:induction false} CanonicalDigits(key: string)
    requires |key| > 0 && AllDigits(key) && (|key| == 1 || key[0] != '0')
    ensures NatToString(DigitsValue(key)) == key
    decreases |key|
  {
    var n := DigitsValue(key);
    if |key| == 1 {
      CanonicalDigit(key);
    } else {
      var init := key[..|key| - 1];
      assert init[0] == key[0];
      CanonicalDigits(init);
      var d := key[|key| - 1] as int - '0' as int;
      assert n == 10 * DigitsValue(init) + d;
      assert n / 10 == DigitsValue(init) && n % 10 == d;
      assert key == init + [key[|key| - 1]];
    }
  }

  /** A single digit is the numeral of its own value. */
  lemma CanonicalDigit(key: string)
    requires |key| == 1 && IsDigit(key[0])
    ensures AllDigits(key) && NatToString(DigitsValue(key)) == key
  {
    assert key[..|key| - 1] == [];
    assert DigitsValue(key[..|key| - 1]) == 0;
    var n := DigitsValue(key);
    assert n == key[0] as int - '0' as int;
    assert NatToString(n) == [DigitChar(n)];
    assert key == [key[0]];
  }

  // ---------------------------------------------------------------------------
  // Types, equality and ordering

  /** The language types of the standard (arrays are objects). */
  datatype JsType = TUndefined | TNull | TBoolean | TNumber | TString | TObject

  function TypeOf(v: Value): JsType
  {
    match v
    case Undef => TUndefined
    case Null => TNull
    case Bool(_) => TBoolean
    case Num(_) => TNumber
    case NaN => TNumber
    case Str(_) => TString
    case Arr(_) => TObject
    case Obj(_) => TObject
  }

  /** `a === b`. Objects are compared by their contents: the model has no object
      identity. */
  predicate StrictEq(a: Value, b: Value)
  {
    TypeOf(a) == TypeOf(b) && !a.NaN? && a == b
  }

  /** SameValueZero, the comparison `Array.prototype.includes` uses: `===` except
      that NaN equals NaN. */
  predicate SameValueZero(a: Value, b: Value)
  {
    a == b
  }

  /** ToPrimitive: objects and arrays become their string form. */
  function ToPrimitive(v: Value): (r: Value)
    ensures !r.Arr? && !r.Obj?
  {
    if v.Arr? || v.Obj? then Str(ToStr(v)) else v
  }

  /** ToNumber on a value, `None` standing for NaN. */
  function ToNumeric(v: Value): Option<int>
  {
    match ToPrimitive(v)
    case Null => Some(0)
    case Bool(b) => Some(if b then 1 else 0)
    case Num(n) => Some(n)
    case Str(s) => StringToNumber(s)
    case _ => None
  }

  /** `a == b`: same type compares strictly; null and undefined equal only each
      other; otherwise booleans and objects are converted and numbers compared. */
  predicate LooseEq(a: Value, b: Value)
  {
    if TypeOf(a) == TypeOf(b) then StrictEq(a, b)
    else if IsNullish(a) || IsNullish(b) then IsNullish(a) && IsNullish(b)
    else
      var pa, pb := ToPrimitive(a), ToPrimitive(b);
      if pa.Str? && pb.Str? then pa.s == pb.s
      else
        var na, nb := ToNumeric(pa), ToNumeric(pb);
        na.Some? && nb.Some? && na.value == nb.value
  }

  /** Code-point order on strings, the order `<` uses between two strings. */
  predicate StrLess(s: string, t: string)
    decreases |s|
  {
    if |t| == 0 then false
    else if |s| == 0 then true
    else if s[0] != t[0] then s[0] < t[0]
    else StrLess(s[1..], t[1..])
  }

  lemma {:induction false} StrLessAsymmetric(s: string, t: string)
    ensures !(StrLess(s, t) && StrLess(t, s))
    decreases |s|
  {
    if |s| > 0 && |t| > 0 && s[0] == t[0] {
      StrLessAsymmetric(s[1..], t[1..]);
    }
  }

  lemma {:induction false} StrLessTotal(s: string, t: string)
    ensures s == t || StrLess(s, t) || StrLess(t, s)
    decreases |s|
  {
    if |s| > 0 && |t| > 0 && s[0] == t[0] {
      StrLessTotal(s[1..], t[1..]);
      if s[1..] == t[1..] {
        assert s == [s[0]] + s[1..] && t == [t[0]] + t[1..];
      }
    }
  }

  lemma {:induction false} StrLessIrreflexive(s: string)
    ensures !StrLess(s, s)
    decreases |s|
  {
    if |s| > 0 {
      StrLessIrreflexive(s[1..]);
    }
  }

  /** `s.localeCompare(t)`, with code-point order standing in for the locale's
      collation: negative, zero or positive. */
  function LocaleCompare(s: string, t: string): (r: int)
    ensures r == 0 <==> s == t
    ensures r < 0 <==> StrLess(s, t)
  {
    StrLessIrreflexive(s);
    if s == t then 0 else if StrLess(s, t) then -1 else 1
  }

  lemma LocaleCompareAntisymmetric(s: string, t: string)
    ensures LocaleCompare(t, s) == -LocaleCompare(s, t)
  {
    StrLessAsymmetric(s, t);
    StrLessTotal(s, t);
  }

  /** The abstract relational comparison `a < b`: `None` where the standard's answer
      is undefined (a NaN operand), which makes `<`, `>`, `<=` and `>=` all false. */
  function RelLess(a: Value, b: Value): Option<bool>
  {
    var pa, pb := ToPrimitive(a), ToPrimitive(b);
    if pa.Str? && pb.Str? then Some(StrLess(pa.s, pb.s))
    else
      var na, nb := ToNumeric(pa), ToNumeric(pb);
      if na.Some? && nb.Some? then Some(na.value < nb.value) else None
  }

  predicate JsLt(a: Value, b: Value) { RelLess(a, b) == Some(true) }
  predicate JsGt(a: Value, b: Value) { RelLess(b, a) == Some(true) }
  predicate JsLe(a: Value, b: Value) { RelLess(b, a) == Some(false) }
  predicate JsGe(a: Value, b: Value) { RelLess(a, b) == Some(false) }

  /** On numbers the four relational operators are the integer orderings. */
  lemma RelationalOnNumbers(x: int, y: int)
    ensures JsLt(Num(x), Num(y)) <==> x < y
    ensures JsGt(Num(x), Num(y)) <==> x > y
    ensures JsLe(Num(x), Num(y)) <==> x <= y
    ensures JsGe(Num(x), Num(y)) <==> x >= y
  {
  }

  // ---------------------------------------------------------------------------
  // Property reads and `+`

  /** `target[key]` for an own property: array elements and `length`, string
      characters and `length`, object fields; `undefined` when there is no such
      property, and a TypeError on null and undefined. */
  function GetProp(target: Value, key: string): (r: Outcome<Value>)
    ensures r.TypeError? <==> IsNullish(target)
  {
    match target
    case Undef => TypeError
    case Null => TypeError
    case Arr(xs) =>
      if key == "length" then Ok(Num(|xs|))
      else (match ArrayIndex(key)
        case Some(i) => if i < |xs| then Ok(xs[i]) else Ok(Undef)
        case None => Ok(Undef))
    case Str(s) =>
      if key == "length" then Ok(Num(|s|))
      else (match ArrayIndex(key)
        case Some(i) => if i < |s| then Ok(Str([s[i]])) else Ok(Undef)
        case None => Ok(Undef))
    case Obj(fs) =>
      (match Lookup(fs, key)
       case Some(v) => Ok(v)
       case None => Ok(Undef))
    case _ => Ok(Undef)
  }

  /** An array's elements are its properties "0", "1", .... */
  lemma GetPropOfElement(xs: seq<Value>, i: nat)
    requires i < |xs|
    ensures GetProp(Arr(xs), NatToString(i)) == Ok(xs[i])
  {
    ArrayIndexOfNatToString(i);
    assert NatToString(i) != "length" by {
      assert AllDigits(NatToString(i));
      assert !IsDigit('l');
    }
  }

  /** An index name reads the element there, or `undefined` past the end. */
  lemma GetPropOfIndex(xs: seq<Value>, i: nat)
    ensures GetProp(Arr(xs), NatToString(i)) == Ok(if i < |xs| then xs[i] else Undef)
  {
    ArrayIndexOfNatToString(i);
    NatToStringNotLength(i);
  }

  /** No numeral is the name `length`. */
  lemma NatToStringNotLength(i: nat)
    ensures NatToString(i) != "length"
  {
    var s := NatToString(i);
    assert IsDigit(s[0]) && "length"[0] == 'l';
  }

  /** Binary `+`: string concatenation when either converted operand is a string,
      numeric addition otherwise. */
  function JsPlus(a: Value, b: Value): (r: Value)
    ensures a.Num? && b.Num? ==> r == Num(a.n + b.n)
    ensures (a.Str? || b.Str?) ==> r == Str(ToStr(a) + ToStr(b))
  {
    var pa, pb := ToPrimitive(a), ToPrimitive(b);
    if pa.Str? || pb.Str? then Str(ToStr(pa) + ToStr(pb))
    else
      var na, nb := ToNumeric(pa), ToNumeric(pb);
      if na.Some? && nb.Some? then Num(na.value + nb.value) else NaN
  }
}
