/** `compared`, the comparison the collections sort with by default. */
module Comparisons {
  import opened OrderedMaps
  import opened JsValues

  /** `compared(a, b, reversed)`: both values are turned into strings with
      `toString` (which throws on null and undefined), and the strings compared. */
  function Compared(a: Value, b: Value, reversed: bool): (r: Outcome<int>)
    ensures r.TypeError? <==> IsNullish(a) || IsNullish(b)
    ensures r.Ok? ==> r.value == CompareStrings(ToStr(a), ToStr(b), reversed)
  {
    var sa, sb := ToStringCall(a), ToStringCall(b);
    if sa.TypeError? || sb.TypeError? then TypeError
    else Ok(CompareStrings(sa.value, sb.value, reversed))
  }

  /** The comparison of the two string forms: when both read as numbers
      (`parseFloat` is not NaN) the difference of the numbers, otherwise
      `localeCompare`; `reversed` swaps the operands. */
  function CompareStrings(sa: string, sb: string, reversed: bool): int
  {
    match (ParseLeadingInt(sa), ParseLeadingInt(sb))
    case (Some(x), Some(y)) => if reversed then y - x else x - y
    case _ => if reversed then LocaleCompare(sb, sa) else LocaleCompare(sa, sb)
  }

  /** The comparison is not transitive: two numerals compare as numbers, but each
      compares with a non-numeric string by code points, which closes a cycle. */
  lemma CompareStringsCycle()
    ensures CompareStrings(" 10", "!", false) < 0
    ensures CompareStrings("!", "9", false) < 0
    ensures CompareStrings("9", " 10", false) < 0
  {
    var ten, bang, nine := " 10", "!", "9";
    CycleParses(ten, bang, nine);
    CycleOrder(ten, bang, nine);
    CycleOf(ten, bang, nine);
  }

  lemma CycleOrder(ten: string, bang: string, nine: string)
    requires ten == " 10" && bang == "!" && nine == "9"
    ensures StrLess(ten, bang) && StrLess(bang, nine)
  {
    StrLessByHead(ten, bang);
    StrLessByHead(bang, nine);
  }

  /** Two numerals and a string between them in code-point order form a cycle. */
  lemma CycleOf(a: string, b: string, c: string)
    requires ParseLeadingInt(a) == Some(10) && ParseLeadingInt(b).None? && ParseLeadingInt(c) == Some(9)
    requires StrLess(a, b) && StrLess(b, c)
    ensures CompareStrings(a, b, false) < 0 && CompareStrings(b, c, false) < 0 && CompareStrings(c, a, false) < 0
  {
    CompareStringsOfUnparsed(a, b);
    CompareStringsOfUnparsed(b, c);
  }

  lemma CycleParses(padded: string, bang: string, nine: string)
    requires padded == " 10" && bang == "!" && nine == "9"
    ensures ParseLeadingInt(bang) == None
    ensures ParseLeadingInt(nine) == Some(9)
    ensures ParseLeadingInt(padded) == Some(10)
  {
    var ten := "10";
    PlainStart(bang);
    assert !IsDigit(bang[0]) && LeadingDigits(bang) == 0;
    TenAndNine();
    ParseLeadingIntOfIntToString(9);
    SkipSpace(padded);
    assert padded[1..] == ten;
    ParseLeadingIntOfIntToString(10);
  }

  /** When a side does not read as a number, strings compare by `localeCompare`. */
  lemma CompareStringsOfUnparsed(sx: string, sy: string)
    requires ParseLeadingInt(sx).None? || ParseLeadingInt(sy).None?
    ensures CompareStrings(sx, sy, false) == LocaleCompare(sx, sy)
  {
  }

  /** Strings whose first characters differ are ordered by those characters. */
  lemma StrLessByHead(s: string, t: string)
    requires |s| > 0 && |t| > 0 && s[0] < t[0]
    ensures StrLess(s, t)
  {
  }

  lemma CompareStringsReversed(sa: string, sb: string)
    ensures CompareStrings(sa, sb, true) == CompareStrings(sb, sa, false)
  {
  }

  /** Reversing is swapping the operands. */
  lemma ComparedReversed(a: Value, b: Value)
    ensures Compared(a, b, true) == Compared(b, a, false)
  {
    if !IsNullish(a) && !IsNullish(b) {
      CompareStringsReversed(ToStr(a), ToStr(b));
    }
  }

  lemma CompareStringsAntisymmetric(sa: string, sb: string, reversed: bool)
    ensures CompareStrings(sb, sa, reversed) == -CompareStrings(sa, sb, reversed)
  {
    LocaleCompareAntisymmetric(sa, sb);
  }

  /** On values that are not null or undefined, `compared` compares the string forms. */
  lemma ComparedOk(a: Value, b: Value, reversed: bool)
    requires !IsNullish(a) && !IsNullish(b)
    ensures Compared(a, b, reversed) == Ok(CompareStrings(ToStr(a), ToStr(b), reversed))
  {
  }

  /** Swapping the operands negates the result. */
  lemma ComparedAntisymmetric(a: Value, b: Value, reversed: bool)
    ensures Compared(a, b, reversed).Ok? ==>
              Compared(b, a, reversed).Ok? && Compared(b, a, reversed).value == -Compared(a, b, reversed).value
  {
    if !IsNullish(a) && !IsNullish(b) {
      ComparedOk(a, b, reversed);
      ComparedOk(b, a, reversed);
      CompareStringsAntisymmetric(ToStr(a), ToStr(b), reversed);
    }
  }

  /** Every value other than null and undefined compares equal to itself. */
  lemma ComparedSelf(a: Value, reversed: bool)
    requires !IsNullish(a)
    ensures Compared(a, a, reversed) == Ok(0)
  {
    ComparedOk(a, a, reversed);
    CompareStringsSelf(ToStr(a), reversed);
  }

  lemma CompareStringsSelf(s: string, reversed: bool)
    ensures CompareStrings(s, s, reversed) == 0
  {
    if ParseLeadingInt(s).None? {
      assert LocaleCompare(s, s) == 0;
    }
  }

  lemma CompareNumerals(x: int, y: int)
    ensures CompareStrings(IntToString(x), IntToString(y), false) == x - y
    ensures CompareStrings(IntToString(x), IntToString(y), true) == y - x
  {
    ParseLeadingIntOfIntToString(x);
    ParseLeadingIntOfIntToString(y);
  }

  /** On numbers `compared` is subtraction. */
  lemma ComparedNumbers(a: Value, b: Value)
    requires a.Num? && b.Num?
    ensures Compared(a, b, false).Ok? && Compared(a, b, false).value == a.n - b.n
    ensures Compared(a, b, true).Ok? && Compared(a, b, true).value == b.n - a.n
  {
    ComparedOk(a, b, false);
    ComparedOk(a, b, true);
    assert ToStr(a) == IntToString(a.n);
    assert ToStr(b) == IntToString(b.n);
    CompareNumerals(a.n, b.n);
  }

  /** Numeric strings compare as numbers: "10" comes after "9" although it is
      smaller as a string. */
  lemma ComparedNumericStrings()
    ensures Compared(Str("10"), Str("9"), false) == Ok(1)
    ensures StrLess("10", "9")
  {
    TenAndNine();
    ParseLeadingIntOfIntToString(10);
    ParseLeadingIntOfIntToString(9);
    ComparedStrings("10", "9");
    CompareStringsOfParsed("10", "9", Some(10), Some(9));
    TenBeforeNine();
  }

  /** Two strings compare by `CompareStrings`. */
  lemma ComparedStrings(sx: string, sy: string)
    ensures Compared(Str(sx), Str(sy), false) == Ok(CompareStrings(sx, sy, false))
  {
    var a, b := Str(sx), Str(sy);
    assert !IsNullish(a) && !IsNullish(b);
    assert ToStr(a) == sx && ToStr(b) == sy;
    var r := Compared(a, b, false);
    assert r.Ok? && r.value == CompareStrings(sx, sy, false);
  }

  lemma CompareStringsOfParsed(sx: string, sy: string, px: Option<int>, py: Option<int>)
    requires ParseLeadingInt(sx) == px && ParseLeadingInt(sy) == py && px.Some? && py.Some?
    ensures CompareStrings(sx, sy, false) == px.value - py.value
  {
  }

  /** As strings, "10" comes first. */
  lemma TenBeforeNine()
    ensures StrLess("10", "9")
  {
    assert "10"[0] == '1' && "9"[0] == '9';
  }

  /** The decimal forms of ten and nine. */
  lemma TenAndNine()
    ensures IntToString(10) == "10" && IntToString(9) == "9"
  {
    assert NatToString(1) == "1";
    assert NatToString(10) == NatToString(1) + [DigitChar(0)];
  }
}
