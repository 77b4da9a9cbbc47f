/** That there is a lawful codec: numbers in unary, strings as their characters in unary. */
module Codecs {
  import opened Messages
  import opened Senders
  import opened Wire

  function Unary(n: nat): Bytes {
    if n == 0 then [0] else [1] + Unary(n - 1)
  }

  /** Each character follows a one, and a zero ends the string. */
  function Characters(s: string): Bytes {
    if s == "" then [0] else [1] + (Unary(s[0] as nat) + Characters(s[1..]))
  }

  lemma {:induction false} UnaryPrefix(m: nat, n: nat, a: Bytes, b: Bytes)
    requires Unary(m) + a == Unary(n) + b
    ensures m == n && a == b
  {
    var x, y := Unary(m) + a, Unary(n) + b;
    if m == 0 || n == 0 {
      assert x[0] == (if m == 0 then 0 else 1) && y[0] == (if n == 0 then 0 else 1);
      assert x[1..] == a && y[1..] == b;
    } else {
      assert x[1..] == Unary(m - 1) + a && y[1..] == Unary(n - 1) + b;
      UnaryPrefix(m - 1, n - 1, a, b);
    }
  }

  lemma {:induction false} CharactersPrefix(s: string, t: string, a: Bytes, b: Bytes)
    requires Characters(s) + a == Characters(t) + b
    ensures s == t
  {
    var x, y := Characters(s) + a, Characters(t) + b;
    if s == "" || t == "" {
      assert x[0] == (if s == "" then 0 else 1) && y[0] == (if t == "" then 0 else 1);
    } else {
      assert x[1..] == Unary(s[0] as nat) + (Characters(s[1..]) + a);
      assert y[1..] == Unary(t[0] as nat) + (Characters(t[1..]) + b);
      UnaryPrefix(s[0] as nat, t[0] as nat, Characters(s[1..]) + a, Characters(t[1..]) + b);
      CharactersPrefix(s[1..], t[1..], a, b);
      assert s == [s[0]] + s[1..] && t == [t[0]] + t[1..];
    }
  }

  ghost predicate IsPrefixFree<T(!new)>(encode: T -> Bytes) {
    && (forall v: T :: encode(v) != [])
    && (forall v: T, w: T, a: Bytes, b: Bytes :: encode(v) + a == encode(w) + b ==> v == w)
  }

  ghost predicate Begins<T(!new)>(encode: T -> Bytes, s: Bytes, v: T) {
    encode(v) <= s
  }

  /** What an encoding that is free of prefixes can be decoded by. */
  ghost function DecodeBy<T(!new)>(encode: T -> Bytes, s: Bytes): Decoded<T> {
    if exists v: T :: Begins(encode, s, v) then
      var v: T :| Begins(encode, s, v);
      Decoded(v, |encode(v)|)
    else NotDecoded
  }

  lemma PrefixFreeIsLawful<T(!new)>(encode: T -> Bytes) returns (f: Field<T>)
    requires IsPrefixFree(encode)
    ensures f.encode == encode && IsLawful(f)
  {
    f := Field(encode, s => DecodeBy(encode, s));
    forall v: T, tail: Bytes ensures f.decode(f.encode(v) + tail) == Decoded(v, |f.encode(v)|) {
      var s := encode(v) + tail;
      assert Begins(encode, s, v);
      var w := f.decode(s).value;
      assert encode(w) + s[|encode(w)|..] == s;
    }
    forall s: Bytes | f.decode(s).Decoded? ensures 0 < f.decode(s).length <= |s| {}
  }

  lemma {:induction false} CharactersAreLonger(s: string)
    ensures |Characters(s)| > |s|
  {
    if s != "" {
      CharactersAreLonger(s[1..]);
    }
  }

  /** There is a lawful codec, and with it there are messages that fit no packet. */
  lemma CodecsExist() returns (codec: Codec)
    ensures codec.Lawful()
    ensures forall m: Message :: |m.text| >= CAPACITY ==> !FitsAPacket(codec, m)
  {
    var wide, narrow := (n: uint64) => Unary(n), (n: uint32) => Unary(n);
    var name, text := (s: Name) => Characters(s), (s: Text) => Characters(s);
    forall v: uint64, w: uint64, a, b | wide(v) + a == wide(w) + b ensures v == w { UnaryPrefix(v, w, a, b); }
    forall v: uint32, w: uint32, a, b | narrow(v) + a == narrow(w) + b ensures v == w { UnaryPrefix(v, w, a, b); }
    forall v: Name, w: Name, a, b | name(v) + a == name(w) + b ensures v == w { CharactersPrefix(v, w, a, b); }
    forall v: Text, w: Text, a, b | text(v) + a == text(w) + b ensures v == w { CharactersPrefix(v, w, a, b); }
    var f1 := PrefixFreeIsLawful(wide);
    var f2 := PrefixFreeIsLawful(narrow);
    var f3 := PrefixFreeIsLawful(name);
    var f4 := PrefixFreeIsLawful(text);
    codec := Codec(f1, f2, f3, f4);
    forall m: Message | |m.text| >= CAPACITY ensures !FitsAPacket(codec, m) {
      CharactersAreLonger(m.text);
      assert |Encode(codec, m)| >= |codec.text.encode(m.text)|;
    }
  }
}
