/** Reading from text: the conversions of `sscanf`, and words and lines of a stream. */
module Scanning {
  import opened Decimal

  /** What reading a value leaves: the rest of the text, a failed stream, or an exception. */
  datatype Parsed<+T> = Parsed(value: T, rest: string) | Failed | Thrown {
    predicate IsFailure() { !Parsed? }

    function PropagateFailure<U>(): Parsed<U>
      requires IsFailure()
    {
      if Failed? then Failed else Thrown
    }

    function Extract(): (T, string)
      requires !IsFailure()
    {
      (value, rest)
    }
  }

  /** White space of the C locale. */
  predicate IsSpace(c: char) {
    c == ' ' || c == '\t' || c == '\n' || c == '\r' || c == '\U{0B}' || c == '\U{0C}'
  }

  predicate NoSpace(s: string) {
    forall i :: 0 <= i < |s| ==> !IsSpace(s[i])
  }

  function SkipSpace(s: string): (r: string)
    ensures |r| <= |s|
    ensures r != "" ==> !IsSpace(r[0])
  {
    if s != "" && IsSpace(s[0]) then SkipSpace(s[1..]) else s
  }

  /** How many characters precede the first white space. */
  function WordLength(s: string): (n: nat)
    ensures n <= |s| && NoSpace(s[..n])
    ensures n < |s| ==> IsSpace(s[n])
  {
    if s == "" || IsSpace(s[0]) then 0
    else
      var n := WordLength(s[1..]);
      assert s[..n + 1] == [s[0]] + s[1..][..n];
      n + 1
  }

  /** How many characters precede the first `c`. */
  function IndexOf(s: string, c: char): (n: nat)
    ensures n <= |s|
    ensures forall i :: 0 <= i < n ==> s[i] != c
    ensures n < |s| ==> s[n] == c
  {
    if s == "" || s[0] == c then 0
    else
      var n := IndexOf(s[1..], c);
      assert forall i :: 0 < i < n + 1 ==> s[i] == s[1..][i - 1];
      n + 1
  }

  /** How many digits `s` starts with, counting no more than `width`. */
  function DigitRun(s: string, width: nat): (n: nat)
    ensures n <= |s| && n <= width && AllDigits(s[..n])
  {
    if width == 0 || s == "" || !IsDigit(s[0]) then 0
    else
      var n := DigitRun(s[1..], width - 1);
      assert s[..n + 1] == [s[0]] + s[1..][..n];
      n + 1
  }

  predicate HasSign(s: string) {
    s != "" && (s[0] == '-' || s[0] == '+')
  }

  /** A numeral of at most `width` characters after white space, with an optional sign. */
  function ScanInt(s: string, width: nat): Parsed<int>
    requires width > 0
  {
    var t := SkipSpace(s);
    var digits := if HasSign(t) then t[1..] else t;
    var n := DigitRun(digits, if HasSign(t) then width - 1 else width);
    var value: int := Value(digits[..n]);
    if n == 0 then Failed else Parsed(if HasSign(t) && t[0] == '-' then -value else value, digits[n..])
  }

  /** `std::stoul`: nothing when it throws. */
  function Stoul(s: string): Parsed<nat> {
    var t := SkipSpace(s);
    var digits := if HasSign(t) then t[1..] else t;
    var n := DigitRun(digits, |digits|);
    var value := Value(digits[..n]);
    if n == 0 || value >= 0x1_0000_0000_0000_0000 then Thrown
    else
      Parsed(if HasSign(t) && t[0] == '-' then (0x1_0000_0000_0000_0000 - value) % 0x1_0000_0000_0000_0000
             else value,
             digits[n..])
  }

  /** `is >> s` for a string. */
  function Word(s: string): (p: Parsed<string>)
    ensures p.Parsed? ==> p.value != "" && NoSpace(p.value) && |p.rest| < |s|
  {
    var t := SkipSpace(s);
    var n := WordLength(t);
    if n == 0 then Failed else Parsed(t[..n], t[n..])
  }

  /** `std::getline`. */
  function Line(s: string): (p: Parsed<string>)
    ensures p.Parsed? ==> '\n' !in p.value && |p.rest| < |s|
  {
    var n := IndexOf(s, '\n');
    if s == "" then Failed
    else if n == |s| then Parsed(s, "")
    else Parsed(s[..n], s[n + 1..])
  }

  lemma {:induction false} DigitsRun(digits: string, rest: string, width: nat)
    requires AllDigits(digits) && |digits| <= width
    requires |digits| == width || rest == "" || !IsDigit(rest[0])
    ensures DigitRun(digits + rest, width) == |digits|
  {
    if digits != "" {
      assert (digits + rest)[1..] == digits[1..] + rest;
      DigitsRun(digits[1..], rest, width - 1);
    } else {
      assert digits + rest == rest;
    }
  }

  /** A numeral that fills its width is read whole, whatever follows. */
  lemma ScansNumeral(digits: string, rest: string)
    requires AllDigits(digits) && digits != ""
    ensures ScanInt(digits + rest, |digits|) == Parsed(Value(digits), rest)
  {
    var s := digits + rest;
    assert IsDigit(s[0]);
    assert SkipSpace(s) == s && !HasSign(s);
    DigitsRun(digits, rest, |digits|);
    assert s[..|digits|] == digits && s[|digits|..] == rest;
  }

  /** `std::stoul` undoes printing, up to the closing bracket or whatever follows. */
  lemma StoulOfDigits(n: nat)
    requires n < 0x1_0000_0000
    ensures Stoul(Digits(n)) == Parsed(n, "")
  {
    var digits := Digits(n);
    DigitsRun(digits, "", |digits|);
    assert digits + "" == digits;
    assert IsDigit(digits[0]);
    assert digits[..|digits|] == digits && digits[|digits|..] == "";
    ValueOfDigits(n);
  }

  lemma {:induction false} WordEnds(word: string, rest: string)
    requires NoSpace(word) && (rest == "" || IsSpace(rest[0]))
    ensures WordLength(word + rest) == |word|
  {
    if word != "" {
      assert (word + rest)[1..] == word[1..] + rest;
      WordEnds(word[1..], rest);
    } else {
      assert word + rest == rest;
    }
  }

  /** A word after one space is read whole when white space follows. */
  lemma ReadsWord(word: string, rest: string)
    requires word != "" && NoSpace(word) && rest != "" && IsSpace(rest[0])
    ensures Word(" " + (word + rest)) == Parsed(word, rest)
  {
    var s := " " + (word + rest);
    assert s[1..] == word + rest;
    assert SkipSpace(s) == SkipSpace(s[1..]) == word + rest;
    WordEnds(word, rest);
    assert (word + rest)[..|word|] == word && (word + rest)[|word|..] == rest;
  }

  lemma {:induction false} IndexIn(s: string, c: char, rest: string)
    requires c !in s && rest != "" && rest[0] == c
    ensures IndexOf(s + rest, c) == |s|
  {
    if s != "" {
      assert (s + rest)[1..] == s[1..] + rest;
      IndexIn(s[1..], c, rest);
    } else {
      assert s + rest == rest;
    }
  }

  lemma ReadsLine(line: string, rest: string)
    requires '\n' !in line
    ensures Line(line + ("\n" + rest)) == Parsed(line, rest)
  {
    IndexIn(line, '\n', "\n" + rest);
    var s := line + ("\n" + rest);
    assert s[..|line|] == line && s[|line| + 1..] == rest;
  }
}
