/**
 * `parse_units` and `format_units`: the attribute texts of a zplane, such as
 * `"94*cm"`, `"-Nozzle_kink_z"` or `"0.5"`, read into a value and a unit, and
 * a value and a unit written back.
 */
module Units {
  import opened Wrappers
  import opened Text
  import opened Numerals

  /** Named constants a text may refer to: name to (value, unit). */
  type Constants = map<string, (real, string)>

  /** The constants used when the caller passes none (tip-relative coordinates). */
  function DefaultConstants(): Constants {
    map["Nozzle_zmin" := (0.0, "cm"), "Nozzle_kink_z" := (94.0, "cm"), "Nozzle_kink_max_r" := (17.57473619, "cm")]
  }

  /** `NAME` or `-NAME` for a known constant: its value (negated for `-NAME`) and its unit. */
  function ConstantRef(s: string, constants: Constants): (r: Option<(real, string)>)
    ensures s in constants ==> r == Some(constants[s])
    ensures r.None? <==> s !in constants && !(StartsWith(s, "-") && s[1..] in constants)
  {
    if s in constants then Some(constants[s])
    else if StartsWith(s, "-") && s[1..] in constants then Some((-constants[s[1..]].0, constants[s[1..]].1))
    else None
  }

  /**
   * `parse_units(value_str, constants)`. The text is stripped; a known
   * constant (or its negation) keeps the constant's unit; otherwise a text
   * with a `*` is split at its first `*`, and any other text is read as a
   * float literal, or as `(0.0, "")` when it is none.
   */
  function ParseUnits(valueStr: string, constants: Constants): (r: Result<(real, string), string>)
    ensures r.Err? ==> '*' in Strip(valueStr)
    ensures Strip(valueStr) in constants ==> r == Ok(constants[Strip(valueStr)])
  {
    var v := Strip(valueStr);
    var ref := ConstantRef(v, constants);
    if ref.Some? then Ok(ref.value)
    else if '*' in v then ParseProduct(v, constants)
    else ParsePlain(v)
  }

  /**
   * `num*unit`: both parts stripped, the number a constant reference (whose
   * own unit is dropped) or a float literal. A number that is neither
   * raises, which is `Err` carrying the refused text.
   */
  function ParseProduct(v: string, constants: Constants): Result<(real, string), string>
    requires '*' in v
  {
    var star := IndexOf(v, '*');
    NumberWithUnit(Strip(v[..star]), Strip(v[star + 1..]), constants)
  }

  /** The number of a product (a constant reference, whose unit is dropped, or a float literal) with the product's unit. */
  function NumberWithUnit(num: string, unit: string, constants: Constants): (r: Result<(real, string), string>)
    ensures r.Err? <==> ConstantRef(num, constants).None? && ParseFloat(num).None?
    ensures r.Err? ==> r.error == FloatError(num)
    ensures r.Ok? ==> r.value.1 == unit
  {
    var ref := ConstantRef(num, constants);
    if ref.Some? then Ok((ref.value.0, unit))
    else
      var x := ParseFloat(num);
      if x.None? then Err(FloatError(num)) else Ok((x.value, unit))
  }

  /** The text of the ValueError `float(num)` raises. */
  function FloatError(num: string): string {
    "could not convert string to float: " + StrRepr(num)
  }

  /** A plain number; a text that is none reads as zero without a unit. */
  function ParsePlain(v: string): Result<(real, string), string> {
    var x := ParseFloat(v);
    if x.None? then Ok((0.0, "")) else Ok((x.value, ""))
  }

  /**
   * `format_units(value, unit)` for a float: the value rounded to 8
   * decimals, then `*unit` when the unit is not empty. An int is written by
   * `FormatIntUnits`.
   */
  function FormatUnits(value: real, unit: string): string {
    var text := ReprScaled(RoundHalfEven(value * Scale8));
    if unit != [] then text + "*" + unit else text
  }

  /**
   * `format_units(value, unit)` for a Python int: `round(value, 8)` returns
   * the int itself, and `str` writes its digits without a decimal point.
   */
  function FormatIntUnits(value: int, unit: string): string {
    var text := IntToString(value);
    if unit != [] then text + "*" + unit else text
  }

  // ---------------------------------------------------------------------
  // properties
  // ---------------------------------------------------------------------

  /** No constant name could be mistaken for a number written by `FormatUnits`. */
  predicate NamesNotNumeric(constants: Constants) {
    forall name :: name in constants ==> name == [] || (!IsDigit(name[0]) && name[0] != '-')
  }

  lemma DefaultNamesNotNumeric()
    ensures NamesNotNumeric(DefaultConstants())
  {
  }

  lemma NegatedRef(name: string, constants: Constants)
    requires name in constants && "-" + name !in constants
    ensures ConstantRef("-" + name, constants) == Some((-constants[name].0, constants[name].1))
  {
    var s := "-" + name;
    assert s[1..] == name;
  }

  /** A negated constant reads as the negated value with the constant's unit. */
  lemma ParseNegatedConstant(name: string, constants: Constants)
    requires name in constants && "-" + name !in constants
    requires name != [] && !IsSpace(name[|name| - 1])
    ensures ParseUnits("-" + name, constants) == Ok((-constants[name].0, constants[name].1))
  {
    NegatedRef(name, constants);
    var s := "-" + name;
    assert s[|s| - 1] == name[|name| - 1];
    StripUnchanged(s);
  }

  lemma StripIdempotent(s: string)
    ensures Strip(Strip(s)) == Strip(s)
  {
    StripShape(s);
    var r := Strip(s);
    if r != [] {
      StripUnchanged(r);
    }
  }

  /** An unparseable plain text reads as zero without a unit. */
  lemma ParseUnparseablePlain(s: string, constants: Constants)
    requires ConstantRef(Strip(s), constants).None? && '*' !in Strip(s) && ParseFloat(s).None?
    ensures ParseUnits(s, constants) == Ok((0.0, ""))
  {
    StripIdempotent(s);
    assert ParseFloat(Strip(s)) == ParseFloat(s);
  }

  /**
   * A text without surrounding white space that is no constant reference is
   * split at its first `*`: the stripped part before it is the number (a
   * constant reference or a float literal, an error otherwise) and the
   * stripped rest is the unit.
   */
  lemma ParseSplitsAtFirstStar(a: string, b: string, constants: Constants)
    requires '*' !in a && Strip(a + "*" + b) == a + "*" + b
    requires ConstantRef(a + "*" + b, constants).None?
    ensures ParseUnits(a + "*" + b, constants) == NumberWithUnit(Strip(a), Strip(b), constants)
  {
    ProductParts(a, b);
    UnitsIsProduct(a + "*" + b, constants);
  }

  lemma UnitsIsProduct(s: string, constants: Constants)
    requires Strip(s) == s && ConstantRef(s, constants).None? && '*' in s
    ensures ParseUnits(s, constants) == ParseProduct(s, constants)
  {
  }

  lemma ProductParts(a: string, b: string)
    requires '*' !in a
    ensures var s := a + "*" + b;
      '*' in s && IndexOf(s, '*') == |a| && s[..|a|] == a && s[|a| + 1..] == b
  {
    var s := a + "*" + b;
    IndexOfFirst(a, '*', b);
    assert s[..|a|] == a && s[|a| + 1..] == b;
  }

  /**
   * `parse_units(format_units(v, u))` gives back `(round(v, 8), u)` for a
   * unit without surrounding white space, whatever the constants, as long as
   * no constant name starts like a number.
   */
  lemma ParseFormatRoundTrip(v: real, u: string, constants: Constants)
    requires Strip(u) == u && NamesNotNumeric(constants)
    ensures ParseUnits(FormatUnits(v, u), constants) == Ok((Round8(v), u))
  {
    var n := RoundHalfEven(v * Scale8);
    var text := ReprScaled(n);
    ReprShape(n);
    ParseRepr(n);
    NumberNotConstant(text, constants);
    ParseNumberText(text, n as real / Scale8, u, constants);
  }

  /** A number written by `FormatUnits` is no constant reference. */
  lemma NumberNotConstant(text: string, constants: Constants)
    requires text != [] && (IsDigit(text[0]) || (text[0] == '-' && |text| > 1 && IsDigit(text[1])))
    requires NamesNotNumeric(constants)
    ensures ConstantRef(text, constants).None?
  {
    if StartsWith(text, "-") {
      assert text[1..][0] == text[1];
    }
  }

  /** A float literal, with or without a unit, reads as its value and that unit. */
  lemma ParseNumberText(text: string, x: real, u: string, constants: Constants)
    requires text != [] && (IsDigit(text[0]) || (text[0] == '-' && |text| > 1 && IsDigit(text[1])))
    requires !IsSpace(text[0]) && !IsSpace(text[|text| - 1]) && '*' !in text
    requires ParseFloat(text).Some? && ParseFloat(text).value == x
    requires ConstantRef(text, constants).None?
    requires Strip(u) == u && NamesNotNumeric(constants)
    ensures ParseUnits(if u != [] then text + "*" + u else text, constants) == Ok((x, u))
  {
    StripUnchanged(text);
    if u != [] {
      FormattedProduct(text, u, constants);
      ParseSplitsAtFirstStar(text, u, constants);
    }
  }

  lemma FormattedProduct(text: string, u: string, constants: Constants)
    requires text != [] && (IsDigit(text[0]) || (text[0] == '-' && |text| > 1 && IsDigit(text[1])))
    requires !IsSpace(text[0]) && !IsSpace(text[|text| - 1]) && '*' !in text
    requires Strip(u) == u && u != [] && NamesNotNumeric(constants)
    requires ConstantRef(text, constants).None?
    ensures Strip(text + "*" + u) == text + "*" + u
    ensures ConstantRef(text + "*" + u, constants).None?
  {
    var s := text + "*" + u;
    StripShape(u);
    assert !IsSpace(u[|u| - 1]);
    assert s[0] == text[0] && s[|s| - 1] == u[|u| - 1];
    StripUnchanged(s);
    assert s !in constants;
    assert !(StartsWith(s, "-") && s[1..] in constants) by {
      if StartsWith(s, "-") {
        assert s[1..][0] == text[1];
      }
    }
  }

  /** Formatting is stable: what `format_units` wrote formats to the same text again. */
  lemma FormatIdempotent(v: real, u: string)
    ensures FormatUnits(Round8(v), u) == FormatUnits(v, u)
  {
    var n := RoundHalfEven(v * Scale8);
    assert Round8(v) * Scale8 == n as real;
    assert RoundHalfEven(n as real) == n;
  }

  /** `parse_units(format_units(i, u))` gives back the int's value and the unit. */
  lemma ParseFormatIntRoundTrip(i: int, u: string, constants: Constants)
    requires Strip(u) == u && NamesNotNumeric(constants)
    ensures ParseUnits(FormatIntUnits(i, u), constants) == Ok((i as real, u))
  {
    var text := IntToString(i);
    IntTextShape(i);
    ParseIntText(i);
    NumberNotConstant(text, constants);
    ParseNumberText(text, i as real, u, constants);
  }

  /**
   * A whole value written by `FormatUnits` (a float in the program) is the
   * text `format_units` writes for the int of the same value, with ".0"
   * before the unit: "595.0*cm" where an int 595 gives "595*cm".
   */
  lemma WholeValueText(i: int, u: string)
    requires -(Pow10(16) as int) < i < Pow10(16)
    ensures FormatUnits(i as real, u) == IntToString(i) + ".0" + (if u != [] then "*" + u else "")
    ensures FormatIntUnits(i, u) == IntToString(i) + (if u != [] then "*" + u else "")
  {
    var n := RoundHalfEven(i as real * Scale8);
    RoundWhole(i);
    ReprOfWhole(i);
    assert ReprScaled(n) == IntToString(i) + ".0";
  }

  /** A whole value scaled by 10^8 is already an integer, so rounding keeps it. */
  lemma RoundWhole(i: int)
    ensures RoundHalfEven(i as real * Scale8) == i * Pow10(8)
  {
    assert Pow10(8) == 100000000;
    assert (i as real) * Scale8 == (i * Pow10(8)) as real;
  }

  /** The far nozzle plane: the int 595 of the base table is written "595*cm", the model's 595.0 "595.0*cm". */
  lemma FarPlaneText()
    ensures FormatIntUnits(595, "cm") == "595*cm"
    ensures FormatUnits(595.0, "cm") == "595.0*cm"
  {
    Pow10Sixteen();
    WholeValueText(595, "cm");
    DigitsOf595();
  }

  lemma DigitsOf595()
    ensures IntToString(595) == "595"
  {
    assert NatToString(59) == "59";
  }

  /** A product whose number part is a plain word raises `float`'s error naming it in quotes. */
  lemma UnparseableProductError(num: string, unit: string, constants: Constants)
    requires ConstantRef(num, constants).None? && ParseFloat(num).None?
    requires forall i :: 0 <= i < |num| ==> PlainChar(num[i]) && num[i] != '\''
    ensures NumberWithUnit(num, unit, constants).Err?
    ensures NumberWithUnit(num, unit, constants).error == "could not convert string to float: '" + num + "'"
  {
    FloatErrorOfPlain(num);
  }

  lemma FloatErrorOfPlain(num: string)
    requires forall i :: 0 <= i < |num| ==> PlainChar(num[i]) && num[i] != '\''
    ensures FloatError(num) == "could not convert string to float: '" + num + "'"
  {
    ReprOfPlain(num);
  }
}
