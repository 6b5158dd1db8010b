/** Python text and bytes. */
module Text {
  // A `str` is a sequence of code points, lone surrogates included (a JSON escape can produce one); a
  // `bytes` value is a sequence of octets. `Utf8Encode` and `Utf8Decode` are the strict UTF-8 codec
  // (section 3 of RFC 3629).

  datatype Option<+T> = None | Some(value: T)

  /** A return value or the error that was raised instead. */
  datatype Result<+T, +E> = Ok(value: T) | Err(error: E) {
    predicate IsFailure() {
      Err?
    }

    function PropagateFailure<U>(): Result<U, E>
      requires Err?
    {
      Err(error)
    }

    function Extract(): T
      requires Ok?
    {
      value
    }
  }

  type CodePoint = c: int | 0 <= c < 0x110000

  type Octet = b: int | 0 <= b < 0x100

  type Str = seq<CodePoint>

  type Bytes = seq<Octet>

  predicate IsSurrogate(c: CodePoint) {
    0xD800 <= c < 0xE000
  }

  /** True when the strict codec can encode the text. */
  predicate Encodable(s: Str) {
    forall i | 0 <= i < |s| :: !IsSurrogate(s[i])
  }

  /** A string literal as Python text. */
  function Lit(s: string): (r: Str)
    ensures |r| == |s|
    ensures forall i | 0 <= i < |s| :: r[i] == s[i] as int
  {
    seq(|s|, i requires 0 <= i < |s| => s[i] as int)
  }

  // ---------------------------------------------------------------- UTF-8

  function Utf8Char(c: CodePoint): (r: Bytes)
    ensures 1 <= |r| <= 4
    ensures c < 0x80 ==> r == [c]
  {
    if c < 0x80 then [c]
    else if c < 0x800 then [0xC0 + c / 64, 0x80 + c % 64]
    else if c < 0x10000 then [0xE0 + c / 4096, 0x80 + c / 64 % 64, 0x80 + c % 64]
    else [0xF0 + c / 262144, 0x80 + c / 4096 % 64, 0x80 + c / 64 % 64, 0x80 + c % 64]
  }

  /** The octets of a text without surrogates; `Utf8Encode` refuses the others. */
  function Utf8Octets(s: Str): (r: Bytes)
    ensures |s| <= |r|
  {
    if s == [] then [] else Utf8Char(s[0]) + Utf8Octets(s[1..])
  }

  function Utf8Encode(s: Str): (r: Option<Bytes>)
    ensures r.Some? <==> Encodable(s)
  {
    if Encodable(s) then Some(Utf8Octets(s)) else None
  }

  predicate Continuation(b: Octet) {
    0x80 <= b < 0xC0
  }

  /** The six payload bits of a continuation octet. */
  function Bits(b: Octet): int {
    (b as int) - 0x80
  }

  function Join2(h: Octet, b: Octet): int {
    ((h as int) - 0xC0) * 64 + Bits(b)
  }

  function Join3(h: Octet, b: Octet, c: Octet): int {
    ((h as int) - 0xE0) * 4096 + Bits(b) * 64 + Bits(c)
  }

  function Join4(h: Octet, b: Octet, c: Octet, d: Octet): int {
    ((h as int) - 0xF0) * 262144 + Bits(b) * 4096 + Bits(c) * 64 + Bits(d)
  }

  /** One strict decoding step: the first code point and how many octets it takes. */
  function Utf8Step(b: Bytes): (r: Option<(CodePoint, nat)>)
    requires b != []
    ensures r.Some? ==> 1 <= r.value.1 <= 4 && r.value.1 <= |b|
  {
    var h := b[0];
    if h < 0x80 then Some((h, 1))
    else if 0xC2 <= h < 0xE0 then
      if |b| >= 2 && Continuation(b[1]) then Some((Join2(h, b[1]), 2)) else None
    else if 0xE0 <= h < 0xF0 then
      if |b| >= 3 && Continuation(b[1]) && Continuation(b[2]) then
        var c := Join3(h, b[1], b[2]);
        if c < 0x800 || 0xD800 <= c < 0xE000 then None else Some((c, 3))
      else None
    else if 0xF0 <= h < 0xF5 then
      if |b| >= 4 && Continuation(b[1]) && Continuation(b[2]) && Continuation(b[3]) then
        var c := Join4(h, b[1], b[2], b[3]);
        if c < 0x10000 || c >= 0x110000 then None else Some((c, 4))
      else None
    else None
  }

  function Utf8Decode(b: Bytes): (r: Option<Str>)
  {
    if b == [] then Some([])
    else
      match Utf8Step(b)
      case None => None
      case Some((c, n)) =>
        match Utf8Decode(b[n..])
        case None => None
        case Some(rest) => Some([c] + rest)
  }

  lemma SplitTwo(c: CodePoint)
    requires 0x80 <= c < 0x800
    ensures var h, b := 0xC0 + c / 64, 0x80 + c % 64; 0xC2 <= h < 0xE0 && Continuation(b) && Join2(h, b) == c
  {
  }

  lemma SplitThree(c: CodePoint)
    requires 0x800 <= c < 0x10000
    ensures var h, b, d := 0xE0 + c / 4096, 0x80 + c / 64 % 64, 0x80 + c % 64;
      0xE0 <= h < 0xF0 && Continuation(b) && Continuation(d) && Join3(h, b, d) == c
  {
    assert c / 64 == c / 4096 * 64 + c / 64 % 64;
  }

  lemma SplitFour(c: CodePoint)
    requires 0x10000 <= c
    ensures var h, b, d, e := 0xF0 + c / 262144, 0x80 + c / 4096 % 64, 0x80 + c / 64 % 64, 0x80 + c % 64;
      0xF0 <= h < 0xF5 && Continuation(b) && Continuation(d) && Continuation(e) && Join4(h, b, d, e) == c
  {
    assert c / 4096 == c / 262144 * 64 + c / 4096 % 64;
    assert c / 64 == c / 4096 * 64 + c / 64 % 64;
  }

  lemma Utf8StepOfChar(c: CodePoint, rest: Bytes)
    requires !IsSurrogate(c)
    ensures Utf8Step(Utf8Char(c) + rest) == Some((c, |Utf8Char(c)|))
  {
    var u := Utf8Char(c);
    var b := u + rest;
    assert forall i | 0 <= i < |u| :: b[i] == u[i];
    if 0x80 <= c < 0x800 {
      SplitTwo(c);
    } else if 0x800 <= c < 0x10000 {
      SplitThree(c);
    } else if c >= 0x10000 {
      SplitFour(c);
    }
    hide Join2, Join3, Join4, Continuation;
  }

  lemma TwoOctets(h: Octet, b: Octet)
    requires 0xC2 <= h < 0xE0 && Continuation(b)
    ensures var c := Join2(h, b); 0x80 <= c < 0x800 && c / 64 == h - 0xC0 && c % 64 == Bits(b)
  {
  }

  lemma ThreeOctets(h: Octet, b: Octet, c: Octet)
    requires 0xE0 <= h < 0xF0 && Continuation(b) && Continuation(c)
    ensures var x := Join3(h, b, c);
      0 <= x < 0x10000 && x / 4096 == h - 0xE0 && x / 64 % 64 == Bits(b) && x % 64 == Bits(c)
  {
    var x := Join3(h, b, c);
    assert x / 64 == (h as int - 0xE0) * 64 + Bits(b) && x % 64 == Bits(c);
  }

  lemma FourOctets(h: Octet, b: Octet, c: Octet, d: Octet)
    requires 0xF0 <= h < 0xF5 && Continuation(b) && Continuation(c) && Continuation(d)
    ensures var x := Join4(h, b, c, d);
      x >= 0 && x / 262144 == h - 0xF0 && x / 4096 % 64 == Bits(b) && x / 64 % 64 == Bits(c) && x % 64 == Bits(d)
  {
    var x := Join4(h, b, c, d);
    assert x / 64 == (h as int - 0xF0) * 4096 + Bits(b) * 64 + Bits(c) && x % 64 == Bits(d);
    assert x / 4096 == (h as int - 0xF0) * 64 + Bits(b);
  }

  lemma CharOfTwo(b: Bytes)
    requires |b| >= 2 && 0xC2 <= b[0] < 0xE0 && Continuation(b[1])
    ensures var c := Join2(b[0], b[1]); !IsSurrogate(c) && Utf8Char(c) == b[..2]
  {
    TwoOctets(b[0], b[1]);
    hide Join2;
  }

  lemma CharOfThree(b: Bytes)
    requires |b| >= 3 && 0xE0 <= b[0] < 0xF0 && Continuation(b[1]) && Continuation(b[2])
    requires Join3(b[0], b[1], b[2]) >= 0x800
    ensures Utf8Char(Join3(b[0], b[1], b[2])) == b[..3]
  {
    ThreeOctets(b[0], b[1], b[2]);
    hide Join3;
  }

  lemma CharOfFour(b: Bytes)
    requires |b| >= 4 && 0xF0 <= b[0] < 0xF5 && Continuation(b[1]) && Continuation(b[2]) && Continuation(b[3])
    requires 0x10000 <= Join4(b[0], b[1], b[2], b[3]) < 0x110000
    ensures Utf8Char(Join4(b[0], b[1], b[2], b[3])) == b[..4]
  {
    FourOctets(b[0], b[1], b[2], b[3]);
    hide Join4;
  }

  lemma Utf8CharOfStep(b: Bytes)
    requires b != [] && Utf8Step(b).Some?
    ensures var (c, n) := Utf8Step(b).value; !IsSurrogate(c) && Utf8Char(c) == b[..n]
  {
    var (c, n) := Utf8Step(b).value;
    if n == 2 {
      CharOfTwo(b);
    } else if n == 3 {
      CharOfThree(b);
    } else if n == 4 {
      CharOfFour(b);
    }
    hide Join2, Join3, Join4, Continuation;
    if n == 1 { assert Utf8Char(c) == [c]; } else { hide Utf8Char; }
  }

  lemma EncodableTail(s: Str)
    requires s != [] && Encodable(s)
    ensures !IsSurrogate(s[0]) && Encodable(s[1..])
  {
  }

  /** Encoding then decoding gives the text back. */
  lemma {:induction false} Utf8RoundTrip(s: Str)
    requires Encodable(s)
    ensures Utf8Decode(Utf8Octets(s)) == Some(s)
  {
    if s != [] {
      hide Utf8Step, Utf8Char, Encodable;
      EncodableTail(s);
      var b, rest := Utf8Octets(s), Utf8Octets(s[1..]);
      Utf8StepOfChar(s[0], rest);
      assert b == Utf8Char(s[0]) + rest && b[|Utf8Char(s[0])|..] == rest;
      Utf8RoundTrip(s[1..]);
      assert [s[0]] + s[1..] == s;
    }
  }

  /** Whatever the strict decoder accepts is the encoding of its result, so no two inputs share a result. */
  lemma {:induction false} Utf8DecodeExact(b: Bytes)
    requires Utf8Decode(b).Some?
    ensures var s := Utf8Decode(b).value; Encodable(s) && Utf8Octets(s) == b
  {
    hide *;
    if b == [] {
      NothingDecoded();
    } else {
      DecodedStep(b);
      var step := Utf8Step(b).value;
      Utf8CharOfStep(b);
      Utf8DecodeExact(b[step.1..]);
      OneMoreEncoded(step.0, Utf8Decode(b[step.1..]).value);
      Halves(b, step.1);
    }
  }

  lemma NothingDecoded()
    ensures Utf8Decode([]) == Some([]) && Utf8Octets([]) == [] && Encodable([])
  {
  }

  lemma Halves(b: Bytes, n: nat)
    requires n <= |b|
    ensures b[..n] + b[n..] == b
  {
  }

  lemma DecodedStep(b: Bytes)
    requires b != [] && Utf8Decode(b).Some?
    ensures Utf8Step(b).Some?
    ensures var (c, n) := Utf8Step(b).value;
      Utf8Decode(b[n..]).Some? && Utf8Decode(b).value == [c] + Utf8Decode(b[n..]).value
  {
    hide Utf8Step;
  }

  lemma OneMoreEncoded(c: CodePoint, rest: Str)
    requires !IsSurrogate(c) && Encodable(rest)
    ensures Encodable([c] + rest) && Utf8Octets([c] + rest) == Utf8Char(c) + Utf8Octets(rest)
  {
    hide Utf8Char, IsSurrogate;
    var s := [c] + rest;
    assert s[0] == c && s[1..] == rest;
    forall i | 0 <= i < |s| ensures !IsSurrogate(s[i]) {
      if i > 0 { assert s[i] == rest[i - 1]; }
    }
  }

  lemma {:induction false} Utf8OctetsConcat(s: Str, t: Str)
    ensures Utf8Octets(s + t) == Utf8Octets(s) + Utf8Octets(t)
  {
    if s == [] {
      assert s + t == t;
    } else {
      hide Utf8Char;
      assert (s + t)[0] == s[0] && (s + t)[1..] == s[1..] + t;
      Utf8OctetsConcat(s[1..], t);
    }
  }

  /** A text of ASCII characters takes one octet each. */
  lemma {:induction false} Utf8OctetsAscii(s: Str)
    requires forall i | 0 <= i < |s| :: s[i] < 0x80
    ensures |Utf8Octets(s)| == |s|
  {
    if s != [] { Utf8OctetsAscii(s[1..]); }
  }

  lemma EncodableConcat(s: Str, t: Str)
    ensures Encodable(s + t) <==> Encodable(s) && Encodable(t)
  {
    if Encodable(s + t) {
      forall i | 0 <= i < |s| ensures !IsSurrogate(s[i]) { assert (s + t)[i] == s[i]; }
      forall i | 0 <= i < |t| ensures !IsSurrogate(t[i]) { assert (s + t)[|s| + i] == t[i]; }
    }
  }
}
