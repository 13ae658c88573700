/**
 * The JavaScript values the front-end passes around: JSON payloads, token
 * claims, React state cells. Only the operations the core relies on are
 * given: truthiness, property access, `a || b` chains, `===`, `String(x)`,
 * and the few string helpers (lower-casing, substring search, whitespace).
 */
module Js {

  /** A JavaScript value as it appears in JSON payloads and component state.
      Numbers are integers; an object is its map of own properties. */
  datatype Value =
    | Undefined
    | Null
    | Bool(b: bool)
    | Num(n: int)
    | Str(s: string)
    | Obj(fields: map<string, Value>)

  /** JavaScript truthiness: `false`, `0`, `""`, `null` and `undefined` are falsy. */
  predicate Truthy(v: Value) {
    match v
    case Undefined => false
    case Null => false
    case Bool(b) => b
    case Num(n) => n != 0
    case Str(s) => s != ""
    case Obj(_) => true
  }

  /** Property access `v?.key`: the property of an object, `undefined` otherwise. */
  function Get(v: Value, key: string): (r: Value)
    ensures r != Undefined ==> v.Obj? && key in v.fields && r == v.fields[key]
    ensures v.Obj? && key in v.fields ==> r == v.fields[key]
  {
    if v.Obj? && key in v.fields then v.fields[key] else Undefined
  }

  /** Strict equality `a === b`. Primitives compare by value; two objects are
      never taken to be the same object, since the model has no identity. */
  predicate StrictEquals(a: Value, b: Value) {
    a == b && !a.Obj?
  }

  /** The chain `vs[0] || vs[1] || ... || fallback`: the first truthy operand,
      or the fallback when none is truthy. */
  function FirstTruthy(vs: seq<Value>, fallback: Value): (r: Value)
    ensures (forall i | 0 <= i < |vs| :: !Truthy(vs[i])) ==> r == fallback
    ensures (exists i | 0 <= i < |vs| :: Truthy(vs[i])) ==>
              exists i | 0 <= i < |vs| :: r == vs[i] && Truthy(r) && forall j | 0 <= j < i :: !Truthy(vs[j])
    ensures Truthy(fallback) ==> Truthy(r)
  {
    if |vs| == 0 then fallback
    else if Truthy(vs[0]) then vs[0]
    else
      var r := FirstTruthy(vs[1..], fallback);
      assert forall i | 1 <= i < |vs| :: vs[i] == vs[1..][i - 1];
      r
  }

  /** The chain yields its first truthy operand. */
  lemma {:induction false} FirstTruthyAt(vs: seq<Value>, fallback: Value, i: int)
    requires 0 <= i < |vs| && Truthy(vs[i])
    requires forall j | 0 <= j < i :: !Truthy(vs[j])
    ensures FirstTruthy(vs, fallback) == vs[i]
    decreases i
  {
    if i > 0 {
      assert !Truthy(vs[0]);
      assert forall j | 0 <= j < i - 1 :: vs[1..][j] == vs[j + 1];
      FirstTruthyAt(vs[1..], fallback, i - 1);
    }
  }

  /** `a || b`. */
  function Or(a: Value, b: Value): (r: Value)
    ensures Truthy(a) ==> r == a
    ensures !Truthy(a) ==> r == b
  {
    FirstTruthy([a], b)
  }

  function DigitChar(d: nat): (c: char)
    requires d < 10
    ensures '0' <= c <= '9'
  {
    ('0' as int + d) as char
  }

  function DigitValue(c: char): nat
  {
    if '0' <= c <= '9' then (c as int - '0' as int) as nat else 0
  }

  /** The decimal digits of a natural number, as `String(n)` prints them. */
  function NatToString(n: nat): (s: string)
    ensures |s| >= 1
    ensures forall i | 0 <= i < |s| :: '0' <= s[i] <= '9'
    ensures |s| > 1 ==> s[0] != '0'
  {
    if n < 10 then [DigitChar(n)] else NatToString(n / 10) + [DigitChar(n % 10)]
  }

  /** Reads a string of decimal digits back as a number; the inverse of NatToString. */
  function ParseDigits(s: string): nat
  {
    if |s| == 0 then 0 else ParseDigits(s[..|s| - 1]) * 10 + DigitValue(s[|s| - 1])
  }

  lemma {:induction false} ParseDigitsOfNatToString(n: nat)
    ensures ParseDigits(NatToString(n)) == n
  {
    var s := NatToString(n);
    if n < 10 {
      assert s[..|s| - 1] == [];
      assert DigitValue(s[0]) == n;
    } else {
      var prefix := NatToString(n / 10);
      assert s == prefix + [DigitChar(n % 10)];
      assert s[..|s| - 1] == prefix;
      assert DigitValue(s[|s| - 1]) == n % 10;
      ParseDigitsOfNatToString(n / 10);
    }
  }

  /** `String(n)` for an integer. */
  function IntToString(n: int): string
  {
    if n < 0 then "-" + NatToString(-n) else NatToString(n)
  }

  lemma NatToStringInjective(a: nat, b: nat)
    requires NatToString(a) == NatToString(b)
    ensures a == b
  {
    ParseDigitsOfNatToString(a);
    ParseDigitsOfNatToString(b);
  }

  /** A negative number prints with a leading minus, any other number without one. */
  lemma SignOfIntToString(a: int)
    ensures |IntToString(a)| >= 1
    ensures IntToString(a)[0] == '-' <==> a < 0
    ensures a < 0 ==> IntToString(a)[1..] == NatToString(-a)
  {
    if a < 0 {
      assert ("-" + NatToString(-a))[1..] == NatToString(-a);
    } else {
      assert '0' <= NatToString(a)[0] <= '9';
    }
  }

  /** Two integers print the same exactly when they are equal. */
  lemma {:induction false} IntToStringInjective(a: int, b: int)
    ensures IntToString(a) == IntToString(b) <==> a == b
  {
    if IntToString(a) == IntToString(b) {
      SignOfIntToString(a);
      SignOfIntToString(b);
      if a < 0 {
        NatToStringInjective(-a, -b);
      } else {
        NatToStringInjective(a, b);
      }
    }
  }

  /** `String(v)`. */
  function ToJsString(v: Value): string
  {
    match v
    case Undefined => "undefined"
    case Null => "null"
    case Bool(b) => if b then "true" else "false"
    case Num(n) => IntToString(n)
    case Str(s) => s
    case Obj(_) => "[object Object]"
  }

  /** `String(a) === String(b)` on two numbers holds exactly when they are equal,
      and a number matches a string exactly when the string is its decimal form. */
  lemma ToJsStringOnNumbers(a: int, b: int, s: string)
    ensures ToJsString(Num(a)) == ToJsString(Num(b)) <==> a == b
    ensures ToJsString(Num(a)) == ToJsString(Str(s)) <==> s == IntToString(a)
  {
    IntToStringInjective(a, b);
  }

  /** ASCII lower-casing, as `toLowerCase` does on ASCII letters. */
  function ToLower(s: string): (r: string)
    ensures |r| == |s|
    ensures forall i | 0 <= i < |s| :: r[i] == LowerChar(s[i])
  {
    seq(|s|, i requires 0 <= i < |s| => LowerChar(s[i]))
  }

  function LowerChar(c: char): char
  {
    if 'A' <= c <= 'Z' then (c as int - 'A' as int + 'a' as int) as char else c
  }

  /** `s.includes(sub)`. */
  predicate Contains(s: string, sub: string)
    ensures sub <= s ==> Contains(s, sub)
    ensures Contains(s, sub) ==> |sub| <= |s|
    decreases |s|
  {
    sub <= s || (|s| > 0 && Contains(s[1..], sub))
  }

  /** The number of occurrences of a character. */
  function Occurrences(s: string, c: char): nat
    decreases |s|
  {
    if |s| == 0 then 0 else (if s[0] == c then 1 else 0) + Occurrences(s[1..], c)
  }

  /** The characters JavaScript counts as white space for both `\s` in a
      regular expression and `String.prototype.trim`: WhiteSpace and
      LineTerminator of the ECMAScript grammar. */
  predicate IsWhitespace(c: char) {
    if c <= ' ' then c == ' ' || '\t' <= c <= '\r'
    else if c < '\U{00A0}' then false
    else
      || c == '\U{00A0}' || c == '\U{1680}' || ('\U{2000}' <= c <= '\U{200A}')
      || c == '\U{2028}' || c == '\U{2029}' || c == '\U{202F}' || c == '\U{205F}'
      || c == '\U{3000}' || c == '\U{FEFF}'
  }
}
