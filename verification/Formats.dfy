/** Formats read by `sscanf` and printed by `strftime` and `std::setw`. */
module Formats {
  import opened Decimal
  import opened Scanning

  /** Numbers `%0wd` and `%0wu`, `%c`, a literal character, and white space. */
  datatype Directive = Int(width: nat) | Unsigned(width: nat) | Char | Literal(c: char) | Space

  type Format = seq<Directive>

  /** The value a directive converts; 0 for a separator. */
  function ScanOne(d: Directive, s: string): Parsed<int> {
    match d
    case Int(width) => if width == 0 then Failed else ScanInt(s, width)
    case Unsigned(width) =>
      if width == 0 then Failed
      else
        var (n, r) :- ScanInt(s, width);
        Parsed(n % 0x1_0000_0000, r)
    case Char => if s == "" then Failed else Parsed(s[0] as int, s[1..])
    case Literal(c) => if s == "" || s[0] != c then Failed else Parsed(0, s[1..])
    case Space => Parsed(0, SkipSpace(s))
  }

  /** One value a directive, or a failure as soon as one does not match. */
  function Scan(format: Format, s: string): (p: Parsed<seq<int>>)
    ensures p.Parsed? ==> |p.value| == |format|
  {
    if format == [] then Parsed([], s)
    else
      var (first, r) :- ScanOne(format[0], s);
      var (others, r) :- Scan(format[1..], r);
      Parsed([first] + others, r)
  }

  /** A scan fails with its second directive. */
  lemma SecondFails(format: Format, s: string)
    requires |format| >= 2 && ScanOne(format[0], s).Parsed?
    requires ScanOne(format[1], ScanOne(format[0], s).rest) == Failed
    ensures Scan(format, s) == Failed
  {}

  /** A numeral filled with zeros to `width`; a longer one is printed whole. */
  function Filled(n: nat, width: nat): (s: string)
    ensures |s| >= width && AllDigits(s)
  {
    if |Digits(n)| >= width then Digits(n) else Padded(n, width)
  }

  /** Values that can be printed: numbers without sign, and characters other than NUL. */
  predicate Fits(d: Directive, value: int) {
    match d
    case Int(_) | Unsigned(_) => value >= 0
    case Char => 0 < value < 0xD800
    case _ => value == 0
  }

  ghost predicate AllFit(format: Format, values: seq<int>) {
    |values| == |format| && forall i :: 0 <= i < |format| ==> Fits(format[i], values[i])
  }

  function RenderOne(d: Directive, value: int): (s: string)
    requires Fits(d, value)
  {
    match d
    case Int(width) => Filled(value, width)
    case Unsigned(width) => Filled(value, width)
    case Char => [value as char]
    case Literal(c) => [c]
    case Space => " "
  }

  function Render(format: Format, values: seq<int>): string
    requires AllFit(format, values)
  {
    if format == [] then "" else RenderOne(format[0], values[0]) + Render(format[1..], values[1..])
  }

  predicate IsNumber(d: Directive) {
    d.Int? || d.Unsigned?
  }

  /** A number has no more digits than its width; no literal is NUL. */
  predicate ExactOne(d: Directive, value: int) {
    match d
    case Int(width) => 0 < width && value < Pow10(width)
    case Unsigned(width) => 0 < width && value < Pow10(width) && value < 0x1_0000_0000
    case Literal(c) => c != '\0'
    case _ => true
  }

  /** All numbers are exact, and white space precedes a number. */
  ghost predicate IsExact(format: Format, values: seq<int>)
    requires |values| == |format|
  {
    && (forall i :: 0 <= i < |format| ==> ExactOne(format[i], values[i]))
    && (forall i :: 0 <= i < |format| && format[i].Space? ==> i + 1 < |format| && IsNumber(format[i + 1]))
  }

  lemma FilledExactly(n: nat, width: nat)
    requires width > 0 && n < Pow10(width)
    ensures |Filled(n, width)| == width && Value(Filled(n, width)) == n
  {
    DigitCount(n, width);
    if |Digits(n)| >= width {
      ValueOfDigits(n);
    } else {
      ValueOfPadded(n, width);
    }
  }

  lemma ScansNumber(n: nat, width: nat, rest: string)
    requires width > 0 && n < Pow10(width)
    ensures ScanInt(Filled(n, width) + rest, width) == Parsed(n, rest)
  {
    FilledExactly(n, width);
    ScansNumeral(Filled(n, width), rest);
  }

  lemma ScansOne(d: Directive, value: int, rest: string)
    requires Fits(d, value) && ExactOne(d, value)
    requires d.Space? ==> rest != "" && !IsSpace(rest[0])
    ensures ScanOne(d, RenderOne(d, value) + rest) == Parsed(value, rest)
  {
    match d
    case Int(width) =>
      ScansNumber(value, width, rest);
    case Unsigned(width) =>
      ScansNumber(value, width, rest);
    case Space =>
      ScansSpace(rest);
    case Char =>
      ScansCharacter(value as char, rest);
    case Literal(c) =>
      ScansCharacter(c, rest);
  }

  lemma ScansCharacter(c: char, rest: string)
    ensures var s := [c] + rest; s != "" && s[0] == c && s[1..] == rest
  {}

  lemma ScansSpace(rest: string)
    requires rest != "" && !IsSpace(rest[0])
    ensures SkipSpace(" " + rest) == rest
  {}

  lemma ScanStep(format: Format, s: string, first: int, r: string, others: seq<int>, rest: string)
    requires format != [] && ScanOne(format[0], s) == Parsed(first, r)
    requires Scan(format[1..], r) == Parsed(others, rest)
    ensures Scan(format, s) == Parsed([first] + others, rest)
  {}

  /** Scanning undoes rendering, for every format and all values that fit their widths. */
  lemma {:induction false} ScanInvertsRender(format: Format, values: seq<int>, rest: string)
    requires AllFit(format, values) && IsExact(format, values)
    ensures Scan(format, Render(format, values) + rest) == Parsed(values, rest)
  {
    if format == [] {
      assert Render(format, values) + rest == rest;
    } else {
      if format[0].Space? {
        StartsWithDigit(format[1..], values[1..]);
      }
      ScanInvertsRender(format[1..], values[1..], rest);
      assert ExactOne(format[0], values[0]);
      var first, others := RenderOne(format[0], values[0]), Render(format[1..], values[1..]);
      Concatenated(first, others, rest);
      OneInverts(format, values, others, rest);
    }
  }

  lemma Concatenated(a: string, b: string, c: string)
    ensures a + b + c == a + (b + c)
  {}

  lemma OneInverts(format: Format, values: seq<int>, others: string, rest: string)
    requires format != [] && AllFit(format, values) && ExactOne(format[0], values[0])
    requires format[0].Space? ==> others != "" && IsDigit(others[0])
    requires Scan(format[1..], others + rest) == Parsed(values[1..], rest)
    ensures Scan(format, RenderOne(format[0], values[0]) + (others + rest)) == Parsed(values, rest)
  {
    var tail := others + rest;
    assert others != "" ==> tail[0] == others[0];
    ScansOne(format[0], values[0], tail);
    ScanStep(format, RenderOne(format[0], values[0]) + tail, values[0], tail, values[1..], rest);
    assert [values[0]] + values[1..] == values;
  }

  lemma StartsWithDigit(format: Format, values: seq<int>)
    requires AllFit(format, values) && IsExact(format, values)
    requires format != [] && IsNumber(format[0])
    ensures var text := Render(format, values); text != "" && IsDigit(text[0])
  {}

  function WidthOf(d: Directive): nat {
    match d
    case Int(width) => width
    case Unsigned(width) => width
    case _ => 1
  }

  function Width(format: Format): nat {
    if format == [] then 0 else WidthOf(format[0]) + Width(format[1..])
  }

  lemma {:induction false} WidthOfBoth(a: Format, b: Format)
    ensures Width(a + b) == Width(a) + Width(b)
  {
    if a == [] {
      assert a + b == b;
    } else {
      assert (a + b)[1..] == a[1..] + b;
      WidthOfBoth(a[1..], b);
    }
  }

  lemma WidthOfFour(format: Format)
    requires |format| == 4
    ensures Width(format) == WidthOf(format[0]) + WidthOf(format[1]) + WidthOf(format[2]) + WidthOf(format[3])
  {
    var one, two, three := format[1..], format[2..], format[3..];
    assert one[1..] == two && two[1..] == three && three[1..] == [];
    assert Width(two) == WidthOf(format[2]) + Width(three);
  }

  /** A rendered text is as wide as its format and holds no NUL. */
  lemma {:induction false} RenderWidth(format: Format, values: seq<int>)
    requires AllFit(format, values) && IsExact(format, values)
    ensures |Render(format, values)| == Width(format)
    ensures '\0' !in Render(format, values)
  {
    if format != [] {
      assert ExactOne(format[0], values[0]);
      if IsNumber(format[0]) {
        FilledExactly(values[0], format[0].width);
      }
      RenderWidth(format[1..], values[1..]);
    }
  }
}
