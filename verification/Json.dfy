/**
 The JSON dialect of the engine: values as the Python decoder builds them, the canonical
 printer (sorted keys, no spaces, minimal escapes) and the scanner of the Python `json`
 module, on code points (sections 2 to 7 of RFC 8259). A float is kept as its own spelling.
 */
module Json {
  import opened Text

  datatype Json =
    | Null
    | Bool(b: bool)
    | Int(n: int)
    | Float(spelling: Str)
    | Text(s: Str)
    | Arr(items: seq<Json>)
    | Obj(fields: seq<Field>)

  /** A dictionary entry; an object lists its entries in insertion order. */
  datatype Field = Field(key: Str, value: Json)

  /** `DigitLimit` is the plain ValueError of the interpreter's integer conversion. */
  datatype JsonError = Malformed | DigitLimit

  const MAX_INT_DIGITS: nat := 4300

  const QUOTE: CodePoint := 0x22
  const PLUS: CodePoint := 0x2B
  const COMMA: CodePoint := 0x2C
  const MINUS: CodePoint := 0x2D
  const POINT: CodePoint := 0x2E
  const ZERO: CodePoint := 0x30
  const NINE: CodePoint := 0x39
  const COLON: CodePoint := 0x3A
  const LBRACKET: CodePoint := 0x5B
  const BACKSLASH: CodePoint := 0x5C
  const RBRACKET: CodePoint := 0x5D
  const LBRACE: CodePoint := 0x7B
  const RBRACE: CodePoint := 0x7D

  // ---------------------------------------------------------------- numbers

  predicate IsDigit(c: CodePoint) {
    ZERO <= c <= NINE
  }

  function Digits(n: nat): (r: Str)
    ensures |r| >= 1
    ensures forall i | 0 <= i < |r| :: IsDigit(r[i])
  {
    if n < 10 then [ZERO + n] else Digits(n / 10) + [ZERO + n % 10]
  }

  function DigitsValue(s: Str): (r: nat)
    requires forall i | 0 <= i < |s| :: IsDigit(s[i])
  {
    if s == [] then 0 else assert IsDigit(s[|s| - 1]); DigitsValue(s[..|s| - 1]) * 10 + ((s[|s| - 1] as int) - ZERO)
  }

  function PrintInt(n: int): (r: Str) {
    if n < 0 then [MINUS] + Digits(-n) else Digits(n)
  }

  predicate IntFits(n: int) {
    |Digits(if n < 0 then -n else n)| <= MAX_INT_DIGITS
  }

  function DigitRun(s: Str): (r: nat)
    ensures r <= |s|
    ensures forall i | 0 <= i < r :: IsDigit(s[i])
  {
    if s != [] && IsDigit(s[0]) then 1 + DigitRun(s[1..]) else 0
  }

  function IntegerLength(s: Str): (r: nat)
    ensures r <= |s|
    ensures forall i | 0 <= i < r :: IsDigit(s[i])
  {
    if s != [] && s[0] == ZERO then 1 else DigitRun(s)
  }

  function FractionLength(s: Str): (r: nat)
    ensures r <= |s|
  {
    if s != [] && s[0] == POINT && DigitRun(s[1..]) > 0 then 1 + DigitRun(s[1..]) else 0
  }

  function ExponentLength(s: Str): (r: nat)
    ensures r <= |s|
  {
    if s == [] || (s[0] != 'e' as int && s[0] != 'E' as int) then 0
    else
      var sign := if |s| > 1 && (s[1] == PLUS || s[1] == MINUS) then 1 else 0;
      var run := DigitRun(s[1 + sign..]);
      if run == 0 then 0 else 1 + sign + run
  }

  function TailLength(s: Str): (r: nat)
    ensures r <= |s|
  {
    var frac := FractionLength(s);
    frac + ExponentLength(s[frac..])
  }

  /** A scanned number: sign, length of the integer part, length of fraction plus exponent. */
  datatype Numeral = Numeral(sign: nat, whole: nat, tail: nat) {
    function Length(): nat {
      sign + whole + tail
    }
  }

  function ScanNumber(s: Str): (r: Numeral)
    ensures r.sign <= 1 && r.Length() <= |s|
    ensures forall i | 0 <= i < r.whole :: IsDigit(s[r.sign..][i])
  {
    var sign := if s != [] && s[0] == MINUS then 1 else 0;
    var whole := IntegerLength(s[sign..]);
    Numeral(sign, whole, if whole == 0 then 0 else TailLength(s[sign..][whole..]))
  }

  /** The spelling of a float: a number with a fraction or an exponent. */
  predicate IsFloatSpelling(s: Str) {
    var m := ScanNumber(s);
    m.whole > 0 && m.tail > 0 && m.Length() == |s|
  }

  // ---------------------------------------------------------------- printing

  function HexDigit(n: nat): (r: CodePoint)
    requires n < 16
  {
    if n < 10 then ZERO + n else 'a' as int + (n - 10)
  }

  function EscapeChar(c: CodePoint): (r: Str)
    ensures 1 <= |r| <= 6
  {
    if c == BACKSLASH then Lit("\\\\")
    else if c == QUOTE then Lit("\\\"")
    else if c == 8 then Lit("\\b")
    else if c == 9 then Lit("\\t")
    else if c == 10 then Lit("\\n")
    else if c == 12 then Lit("\\f")
    else if c == 13 then Lit("\\r")
    else if c < 0x20 then Lit("\\u00") + [HexDigit(c / 16), HexDigit(c % 16)]
    else [c]
  }

  function EscapeChars(s: Str): Str {
    if s == [] then [] else EscapeChar(s[0]) + EscapeChars(s[1..])
  }

  function PrintText(s: Str): Str {
    [QUOTE] + EscapeChars(s) + [QUOTE]
  }

  function Print(v: Json): Str
    decreases v, 0
  {
    match v
    case Null => Lit("null")
    case Bool(b) => if b then Lit("true") else Lit("false")
    case Int(n) => PrintInt(n)
    case Float(f) => f
    case Text(s) => PrintText(s)
    case Arr(items) => [LBRACKET] + PrintItems(items) + [RBRACKET]
    case Obj(fields) => [LBRACE] + PrintFields(fields) + [RBRACE]
  }

  function PrintItems(items: seq<Json>): Str
    decreases items, 1
  {
    if items == [] then []
    else if |items| == 1 then Print(items[0])
    else Print(items[0]) + [COMMA] + PrintItems(items[1..])
  }

  function PrintFields(fields: seq<Field>): Str
    decreases fields, 1
  {
    if fields == [] then []
    else if |fields| == 1 then PrintField(fields[0])
    else PrintField(fields[0]) + [COMMA] + PrintFields(fields[1..])
  }

  function PrintField(f: Field): Str
    decreases f, 0
  {
    PrintText(f.key) + [COLON] + Print(f.value)
  }

  // ---------------------------------------------------------------- sorted keys

  /** Python's order on text: by code point, a proper prefix first. */
  predicate StrLess(a: Str, b: Str) {
    b != [] && (a == [] || a[0] < b[0] || (a[0] == b[0] && StrLess(a[1..], b[1..])))
  }

  function InsertField(f: Field, fields: seq<Field>): seq<Field> {
    if fields == [] || StrLess(f.key, fields[0].key) then [f] + fields
    else [fields[0]] + InsertField(f, fields[1..])
  }

  function SortFields(fields: seq<Field>): seq<Field> {
    if fields == [] then [] else InsertField(fields[0], SortFields(fields[1..]))
  }

  /** The value with the entries of every object in key order. */
  function Sorted(v: Json): Json
    decreases v, 0
  {
    match v
    case Arr(items) => Arr(SortedItems(items))
    case Obj(fields) => Obj(SortFields(SortedValues(fields)))
    case _ => v
  }

  function SortedItems(items: seq<Json>): (r: seq<Json>)
    ensures |r| == |items|
    decreases items, 1
  {
    if items == [] then [] else [Sorted(items[0])] + SortedItems(items[1..])
  }

  function SortedValues(fields: seq<Field>): (r: seq<Field>)
    ensures |r| == |fields|
    ensures forall i | 0 <= i < |fields| :: r[i].key == fields[i].key
    decreases fields, 1
  {
    if fields == [] then []
    else [Field(fields[0].key, Sorted(fields[0].value))] + SortedValues(fields[1..])
  }

  // ---------------------------------------------------------------- well-formed values

  predicate DistinctKeys(fields: seq<Field>) {
    forall i, j | 0 <= i < j < |fields| :: fields[i].key != fields[j].key
  }

  /** No object of the value repeats a key: what a Python dictionary always satisfies. */
  predicate UniqueKeys(v: Json)
    decreases v
  {
    match v
    case Arr(items) => forall i | 0 <= i < |items| :: UniqueKeys(items[i])
    case Obj(fields) =>
      DistinctKeys(fields) && forall i | 0 <= i < |fields| :: UniqueKeys(fields[i].value)
    case _ => true
  }

  /** Every float is spelled as one and every integer is within the conversion limit. */
  predicate Spellable(v: Json)
    decreases v
  {
    match v
    case Int(n) => IntFits(n)
    case Float(f) => IsFloatSpelling(f)
    case Arr(items) => forall i | 0 <= i < |items| :: Spellable(items[i])
    case Obj(fields) => forall i | 0 <= i < |fields| :: Spellable(fields[i].value)
    case _ => true
  }

  /** The same, with the constants that are not numbers as further floats if they are read. */
  predicate Readable(v: Json, constants: bool)
    decreases v
  {
    match v
    case Int(n) => IntFits(n)
    case Float(f) => IsFloatSpelling(f) || (constants && IsConstant(f))
    case Arr(items) => forall i | 0 <= i < |items| :: Readable(items[i], constants)
    case Obj(fields) => forall i | 0 <= i < |fields| :: Readable(fields[i].value, constants)
    case _ => true
  }

  /** The printer as called by the program: keys sorted at every level. */
  function Dumps(v: Json): (r: Result<Str, JsonError>)
    ensures r.Ok? <==> Spellable(v)
  {
    if Spellable(v) then Ok(Print(Sorted(v))) else Err(DigitLimit)
  }

  // ---------------------------------------------------------------- scanning

  predicate IsSpace(c: CodePoint) {
    c == ' ' as int || c == 9 || c == 10 || c == 13
  }

  function SkipSpace(s: Str): (r: Str)
    ensures |r| <= |s|
    ensures r == [] || !IsSpace(r[0])
    ensures s != [] && !IsSpace(s[0]) ==> r == s
  {
    if s != [] && IsSpace(s[0]) then SkipSpace(s[1..]) else s
  }

  function HexValue(c: CodePoint): (r: Option<nat>)
    ensures r.Some? ==> r.value < 16
  {
    if IsDigit(c) then Some(c - ZERO)
    else if 'a' as int <= c <= 'f' as int then Some(c - 'a' as int + 10)
    else if 'A' as int <= c <= 'F' as int then Some(c - 'A' as int + 10)
    else None
  }

  /** The four hexadecimal digits of an escape. */
  function HexQuad(s: Str): (r: Option<nat>)
    ensures r.Some? ==> |s| >= 4 && r.value < 0x10000
  {
    if |s| < 4 then None
    else
      match (HexValue(s[0]), HexValue(s[1]), HexValue(s[2]), HexValue(s[3]))
      case (Some(a), Some(b), Some(c), Some(d)) => Some(a * 4096 + b * 256 + c * 16 + d)
      case _ => None
  }

  predicate IsHighSurrogate(c: nat) {
    0xD800 <= c < 0xDC00
  }

  predicate IsLowSurrogate(c: nat) {
    0xDC00 <= c < 0xE000
  }

  /** The escape after a backslash: its code point and how much of `s` it takes. */
  function Unescape(s: Str): (r: Option<(CodePoint, nat)>)
    ensures r.Some? ==> 1 <= r.value.1 <= |s|
  {
    if s == [] then None
    else if s[0] == QUOTE || s[0] == BACKSLASH || s[0] == '/' as int then Some((s[0], 1))
    else if s[0] == 'b' as int then Some((8, 1))
    else if s[0] == 'f' as int then Some((12, 1))
    else if s[0] == 'n' as int then Some((10, 1))
    else if s[0] == 'r' as int then Some((13, 1))
    else if s[0] == 't' as int then Some((9, 1))
    else if s[0] != 'u' as int then None
    else
      match HexQuad(s[1..])
      case None => None
      case Some(high) =>
        if IsHighSurrogate(high) && |s| >= 7 && s[5] == BACKSLASH && s[6] == 'u' as int then
          match HexQuad(s[7..])
          case None => None
          case Some(low) =>
            if IsLowSurrogate(low) then Some((0x10000 + (high - 0xD800) * 1024 + (low - 0xDC00), 11))
            else Some((high, 5))
        else Some((high, 5))
  }

  /** The rest of a string after its opening quote. */
  function ParseChars(s: Str): (r: Result<(Str, Str), JsonError>)
    ensures r.Ok? ==> |r.value.1| < |s|
  {
    if s == [] then Err(Malformed)
    else if s[0] == QUOTE then Ok(([], s[1..]))
    else if s[0] < 0x20 then Err(Malformed)
    else if s[0] == BACKSLASH then
      match Unescape(s[1..])
      case None => Err(Malformed)
      case Some((c, n)) =>
        var (cs, rest) :- ParseChars(s[1 + n..]);
        Ok(([c] + cs, rest))
    else
      var (cs, rest) :- ParseChars(s[1..]);
      Ok(([s[0]] + cs, rest))
  }

  /**
   What differs between the program's uses of the decoder: whether a repeated key is refused, and
   whether the constants `NaN`, `Infinity` and `-Infinity` are read as numbers, as `json.loads` reads
   them unless it is told otherwise.
   */
  datatype Dialect = Dialect(strict: bool, constants: bool)

  const STRICT := Dialect(true, false)
  const UNIQUE := Dialect(true, true)
  const PYTHON := Dialect(false, true)

  /** The length of a constant that is not a number at the front of `s`. */
  function ConstantLength(s: Str): (n: nat)
    ensures n <= |s|
  {
    if Begins(s, "NaN") then 3 else if Begins(s, "Infinity") then 8 else if Begins(s, "-Infinity") then 9 else 0
  }

  predicate IsConstant(s: Str) {
    s != [] && ConstantLength(s) == |s|
  }

  function ParseNumber(s: Str, constants: bool): (r: Result<(Json, Str), JsonError>)
    ensures r.Ok? ==> |r.value.1| < |s|
  {
    var m := ScanNumber(s);
    if constants && ConstantLength(s) > 0 then Ok((Float(s[..ConstantLength(s)]), s[ConstantLength(s)..]))
    else if m.whole == 0 then Err(Malformed)
    else if m.tail > 0 then Ok((Float(s[..m.Length()]), s[m.Length()..]))
    else if m.whole > MAX_INT_DIGITS then Err(DigitLimit)
    else
      var magnitude: int := DigitsValue(s[m.sign..][..m.whole]);
      Ok((Int(if m.sign == 1 then -magnitude else magnitude), s[m.Length()..]))
  }

  /** True when `s` begins with the keyword. */
  predicate Begins(s: Str, word: string) {
    |word| <= |s| && s[..|word|] == Lit(word)
  }

  /**
   One value at the front of `s` and the text after it. In a strict dialect an object whose entries
   repeat a key is refused as it closes; otherwise all its entries are kept.
   */
  function ParseValue(s: Str, d: Dialect): (r: Result<(Json, Str), JsonError>)
    ensures r.Ok? ==> |r.value.1| < |s|
    decreases |s|, 0
  {
    if s == [] then Err(Malformed)
    else if s[0] == QUOTE then
      var (t, rest) :- ParseChars(s[1..]);
      Ok((Text(t), rest))
    else if s[0] == LBRACE then
      var body := SkipSpace(s[1..]);
      if body != [] && body[0] == RBRACE then Ok((Obj([]), body[1..]))
      else
        var (fields, rest) :- ParseFields(body, d);
        if d.strict && !DistinctKeys(fields) then Err(Malformed) else Ok((Obj(fields), rest))
    else if s[0] == LBRACKET then
      var body := SkipSpace(s[1..]);
      if body != [] && body[0] == RBRACKET then Ok((Arr([]), body[1..]))
      else
        var (items, rest) :- ParseItems(body, d);
        Ok((Arr(items), rest))
    else if Begins(s, "null") then Ok((Null, s[4..]))
    else if Begins(s, "true") then Ok((Bool(true), s[4..]))
    else if Begins(s, "false") then Ok((Bool(false), s[5..]))
    else ParseNumber(s, d.constants)
  }

  /** The entries of an object up to and including its closing brace. */
  function ParseFields(s: Str, d: Dialect): (r: Result<(seq<Field>, Str), JsonError>)
    ensures r.Ok? ==> |r.value.1| < |s|
    decreases |s|
  {
    if s == [] || s[0] != QUOTE then Err(Malformed)
    else
      var (key, afterKey) :- ParseChars(s[1..]);
      var colon := SkipSpace(afterKey);
      if colon == [] || colon[0] != COLON then Err(Malformed)
      else
        var (value, afterValue) :- ParseValue(SkipSpace(colon[1..]), d);
        var next := SkipSpace(afterValue);
        if next == [] then Err(Malformed)
        else if next[0] == RBRACE then Ok(([Field(key, value)], next[1..]))
        else if next[0] != COMMA then Err(Malformed)
        else
          var (fields, rest) :- ParseFields(SkipSpace(next[1..]), d);
          Ok(([Field(key, value)] + fields, rest))
  }

  /** The items of an array up to and including its closing bracket. */
  function ParseItems(s: Str, d: Dialect): (r: Result<(seq<Json>, Str), JsonError>)
    ensures r.Ok? ==> |r.value.1| < |s|
    decreases |s|, 1
  {
    var (value, afterValue) :- ParseValue(s, d);
    var next := SkipSpace(afterValue);
    if next == [] then Err(Malformed)
    else if next[0] == RBRACKET then Ok(([value], next[1..]))
    else if next[0] != COMMA then Err(Malformed)
    else
      var (items, rest) :- ParseItems(SkipSpace(next[1..]), d);
      Ok(([value] + items, rest))
  }

  /** The whole decoder: no byte order mark, one value, only white space around it. */
  function Loads(s: Str, d: Dialect): (r: Result<Json, JsonError>)
  {
    if s != [] && s[0] == 0xFEFF then Err(Malformed)
    else
      var (value, rest) :- ParseValue(SkipSpace(s), d);
      if SkipSpace(rest) == [] then Ok(value) else Err(Malformed)
  }
}
