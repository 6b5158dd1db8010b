/** A backtracking matcher. */
module Regex {
  // The part of Python's regular expressions that the identifier lexer uses: an expression gives, from
  // a position, the ends it can reach in the order it tries them.

  import opened Text

  datatype Class = Upper | Lower | Digit | Alnum

  datatype Regex =
    | Char(class_: Class)
    | Then(first: Regex, second: Regex)
    | Or(left: Regex, right: Regex)
    | Many(item: Regex)
    | Maybe(item: Regex)
    | Ahead(item: Regex)
    | End

  const NEWLINE: CodePoint := 10

  predicate In(k: Class, c: CodePoint) {
    match k
    case Upper => 65 <= c <= 90
    case Lower => 97 <= c <= 122
    case Digit => 48 <= c <= 57
    case Alnum => 48 <= c <= 57 || 65 <= c <= 90 || 97 <= c <= 122
  }

  predicate Within(ends: seq<nat>, low: nat, high: nat) {
    forall k | 0 <= k < |ends| :: low <= ends[k] <= high
  }

  /** The ends reachable from `i`, most preferred first: `+` and `?` are greedy. */
  function Ends(r: Regex, s: Str, i: nat): (ends: seq<nat>)
    requires i <= |s|
    ensures Within(ends, i, |s|)
    decreases r, |s| - i
  {
    match r
    case Char(k) => if i < |s| && In(k, s[i]) then [i + 1] else []
    case Then(a, b) => After(b, s, i, Ends(a, s, i))
    case Or(a, b) => Ends(a, s, i) + Ends(b, s, i)
    case Many(a) => Repeat(r, s, i, Ends(a, s, i))
    case Maybe(a) => Ends(a, s, i) + [i]
    case Ahead(a) => if Ends(a, s, i) != [] then [i] else []
    case End => if i == |s| || (i == |s| - 1 && s[i] == NEWLINE) then [i] else []
  }

  function After(r: Regex, s: Str, i: nat, starts: seq<nat>): (ends: seq<nat>)
    requires i <= |s| && Within(starts, i, |s|)
    ensures Within(ends, i, |s|)
    decreases r, |s| + 1, |starts|
  {
    if starts == [] then [] else Ends(r, s, starts[0]) + After(r, s, i, starts[1..])
  }

  /** After each end of one more item, first go on repeating, then stop there. */
  function Repeat(r: Regex, s: Str, i: nat, starts: seq<nat>): (ends: seq<nat>)
    requires i <= |s| && Within(starts, i, |s|)
    ensures Within(ends, i, |s|)
    decreases r, |s| - i, |starts|
  {
    if starts == [] then []
    else (if starts[0] > i then Ends(r, s, starts[0]) + [starts[0]] else []) + Repeat(r, s, i, starts[1..])
  }

  /** `finditer` from `i`: the leftmost match at or after `i`, then on from its end. */
  function FindAll(r: Regex, s: Str, i: nat): seq<Str>
    requires i <= |s|
    decreases |s| - i
  {
    if i == |s| then []
    else
      var ends := Ends(r, s, i);
      if ends == [] || ends[0] == i then FindAll(r, s, i + 1)
      else [s[i..ends[0]]] + FindAll(r, s, ends[0])
  }

  // ---------------------------------------------------------------- greedy runs of a class

  /** The end of the run of `k` characters from `i`. */
  function RunEnd(k: Class, s: Str, i: nat): (e: nat)
    requires i <= |s|
    ensures i <= e <= |s|
    ensures forall j | i <= j < e :: In(k, s[j])
    ensures e < |s| ==> !In(k, s[e])
    decreases |s| - i
  {
    if i < |s| && In(k, s[i]) then RunEnd(k, s, i + 1) else i
  }

  /** `e, e - 1, ..., i + 1`. */
  function Down(e: nat, i: nat): seq<nat> {
    if e <= i then [] else [e] + Down(e - 1, i)
  }

  lemma {:induction false} DownGrows(e: nat, i: nat)
    requires i < e
    ensures Down(e, i) == Down(e, i + 1) + [i + 1]
  {
    if e > i + 1 { DownGrows(e - 1, i); }
  }

  /** A greedy `+` tries the whole run first and then gives back one character at a time. */
  lemma {:induction false} ManyGivesBack(k: Class, s: Str, i: nat)
    requires i <= |s|
    ensures Ends(Many(Char(k)), s, i) == Down(RunEnd(k, s, i), i)
    decreases |s| - i
  {
    var r := Many(Char(k));
    if i < |s| && In(k, s[i]) {
      var one := [i + 1];
      assert Ends(Char(k), s, i) == one && one[1..] == [];
      assert Repeat(r, s, i, one) == (Ends(r, s, i + 1) + [i + 1]) + Repeat(r, s, i, one[1..]);
      ManyGivesBack(k, s, i + 1);
      DownGrows(RunEnd(k, s, i), i);
    }
  }
}
