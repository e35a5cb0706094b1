/** The JavaScript values and the few host primitives that the inventory
    dashboard's logic relies on.

    Values are modelled exactly where the rules look at them (typeof, truthiness,
    strict equality, `<`/`<=` after numeric conversion, subtraction); numbers
    are exact reals plus NaN and the two infinities, not IEEE doubles.
    Conversions whose full definition lives in the JavaScript engine (parsing
    a string as a number, case mapping, locale collation, number formatting)
    are fields of a `Host` value: every operation that needs one takes the host
    as a parameter and every property proved here holds for every host. */
module JsValues {

  datatype Option<+T> = None | Some(value: T)

  /** A JavaScript number: NaN, an infinity, or a finite value. */
  datatype Num = NaN | PosInf | NegInf | Fin(r: real)

  /** A JavaScript value as the rules see it. `Obj` is any object; it carries
      the string the object converts to (`String(obj)`), through which
      `Number(obj)` is computed as for plain objects and arrays. */
  datatype Value =
    | Undefined
    | Null
    | Bool(b: bool)
    | Number(n: Num)
    | Str(s: string)
    | Obj(text: string)

  /** A clock reading (`new Date()`); the clock is a parameter of every
      operation that reads it. */
  type Stamp = int

  /** The engine's own conversions, left uninterpreted. */
  datatype Host = Host(
    stringToNumber: string -> Num,          // Number(s) for a string s
    toLower: string -> string,              // s.toLowerCase()
    toUpper: string -> string,              // s.toUpperCase()
    localeCompare: (string, string) -> int, // a.localeCompare(b)
    parseInt: Value -> Num,                 // parseInt(v, 10)
    parseFloat: Value -> Num,               // parseFloat(v)
    show: Value -> string                   // `${v}`
  )

  /** `Number(v)`. */
  function ToNumber(h: Host, v: Value): (n: Num)
    ensures v.Number? ==> n == v.n
    ensures v == Null ==> n == Fin(0.0)
    ensures v == Undefined ==> n == NaN
  {
    match v
    case Undefined => NaN
    case Null => Fin(0.0)
    case Bool(b) => if b then Fin(1.0) else Fin(0.0)
    case Number(n) => n
    case Str(s) => h.stringToNumber(s)
    case Obj(text) => h.stringToNumber(text)
  }

  /** JavaScript truthiness: `!!v`. */
  predicate Truthy(v: Value) {
    match v
    case Undefined => false
    case Null => false
    case Bool(b) => b
    case Number(n) => n != NaN && n != Fin(0.0)
    case Str(s) => s != ""
    case Obj(_) => true
  }

  /** `Number.isInteger(n)`. */
  predicate IsInteger(n: Num) {
    n.Fin? && n.r == n.r.Floor as real
  }

  /** `a < b` on numbers: false whenever NaN is involved. */
  predicate Less(a: Num, b: Num) {
    match (a, b)
    case (NaN, _) => false
    case (_, NaN) => false
    case (NegInf, _) => b != NegInf
    case (_, PosInf) => a != PosInf
    case (Fin(x), Fin(y)) => x < y
    case _ => false
  }

  /** `a <= b` on numbers: false whenever NaN is involved. */
  predicate LessEq(a: Num, b: Num) {
    a != NaN && b != NaN && !Less(b, a)
  }

  /** `a - b` on numbers (without the rounding of doubles). */
  function Sub(a: Num, b: Num): Num {
    match (a, b)
    case (NaN, _) => NaN
    case (_, NaN) => NaN
    case (PosInf, PosInf) => NaN
    case (NegInf, NegInf) => NaN
    case (PosInf, _) => PosInf
    case (NegInf, _) => NegInf
    case (_, PosInf) => NegInf
    case (_, NegInf) => PosInf
    case (Fin(x), Fin(y)) => Fin(x - y)
  }

  /** The characters JavaScript's `\s` and `String.prototype.trim` treat as
      white space: the WhiteSpace and LineTerminator code points. */
  predicate IsSpace(c: char) {
    var n := c as int;
    (9 <= n <= 13) || n == 32 || n == 0xA0 || n == 0x1680 ||
    (0x2000 <= n <= 0x200A) || n == 0x2028 || n == 0x2029 ||
    n == 0x202F || n == 0x205F || n == 0x3000 || n == 0xFEFF
  }

  /** `s.trimStart()`. */
  function TrimStart(s: string): string {
    if s != [] && IsSpace(s[0]) then TrimStart(s[1..]) else s
  }

  /** `s.trimEnd()`. */
  function TrimEnd(s: string): string {
    if s != [] && IsSpace(s[|s| - 1]) then TrimEnd(s[..|s| - 1]) else s
  }

  /** `s.trim()`. */
  function Trim(s: string): string {
    TrimEnd(TrimStart(s))
  }

  /** `trimStart` drops exactly the leading white space. */
  lemma {:induction false} TrimStartDropsLeadingSpace(s: string)
    ensures var r := TrimStart(s);
      && |r| <= |s| && r == s[|s| - |r|..]
      && (r == [] || !IsSpace(r[0]))
      && forall i :: 0 <= i < |s| - |r| ==> IsSpace(s[i])
  {
    if s != [] && IsSpace(s[0]) {
      var r := TrimStart(s[1..]);
      TrimStartDropsLeadingSpace(s[1..]);
      assert s[1..][|s| - 1 - |r|..] == s[|s| - |r|..];
      assert forall i :: 1 <= i < |s| - |r| ==> s[1..][i - 1] == s[i];
    }
  }

  /** `trimEnd` drops exactly the trailing white space. */
  lemma {:induction false} TrimEndDropsTrailingSpace(s: string)
    ensures var r := TrimEnd(s);
      && |r| <= |s| && r == s[..|r|]
      && (r == [] || !IsSpace(r[|r| - 1]))
      && forall i :: |r| <= i < |s| ==> IsSpace(s[i])
  {
    if s != [] && IsSpace(s[|s| - 1]) {
      var r := TrimEnd(s[..|s| - 1]);
      TrimEndDropsTrailingSpace(s[..|s| - 1]);
      assert s[..|s| - 1][..|r|] == s[..|r|];
      assert forall i :: |r| <= i < |s| - 1 ==> s[..|s| - 1][i] == s[i];
    }
  }

  /** `trim` keeps a slice `s[a..b]` that neither starts nor ends with white
      space, and drops only white space before and after it; it is empty
      exactly when `s` is all white space. */
  lemma TrimDropsOnlySpace(s: string)
    ensures var r := Trim(s);
      && (r == [] || (!IsSpace(r[0]) && !IsSpace(r[|r| - 1])))
      && (exists a, b :: 0 <= a <= b <= |s| && r == s[a..b] &&
           (forall i :: 0 <= i < a ==> IsSpace(s[i])) && (forall i :: b <= i < |s| ==> IsSpace(s[i])))
      && (r == [] <==> forall i :: 0 <= i < |s| ==> IsSpace(s[i]))
  {
    var t := TrimStart(s);
    var r := TrimEnd(t);
    TrimStartDropsLeadingSpace(s);
    TrimEndDropsTrailingSpace(t);
    var a := |s| - |t|;
    var b := a + |r|;
    assert r == s[a..b];
    assert forall i :: b <= i < |s| ==> s[i] == t[i - a];
    if r != [] {
      assert s[a] == r[0];
    }
  }

  /** `s.includes(sub)`. */
  predicate Contains(s: string, sub: string) {
    exists i | 0 <= i <= |s| - |sub| :: OccursAt(s, sub, i)
  }

  predicate OccursAt(s: string, sub: string, i: int) {
    0 <= i <= |s| - |sub| && s[i..i + |sub|] == sub
  }
}
