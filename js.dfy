/**
 * JavaScript values as the dashboard sees them: parsed JSON payloads and the
 * plain objects (records) built from them, with the handful of language
 * operations the pipeline relies on (truthiness, `??`, optional property
 * access, object spread, `Number(...)`, `String.prototype.trim`, decimal
 * printing of integers).
 */
module Js {

  datatype Option<+T> = None | Some(value: T)

  /** A JSON value. `undefined` is never a value: an absent property is `None`. */
  datatype Value =
    | Null
    | Bool(b: bool)
    | Num(n: real)
    | Str(s: string)
    | Arr(items: seq<Value>)
    | Obj(fields: map<string, Value>)

  /** A plain object such as an event record: its own enumerable properties. */
  type Record = map<string, Value>

  /** ECMAScript ToBoolean. */
  predicate Truthy(v: Value)
  {
    match v
    case Null => false
    case Bool(b) => b
    case Num(n) => n != 0.0
    case Str(s) => s != ""
    case Arr(_) => true
    case Obj(_) => true
  }

  /** Truthiness of a possibly-undefined value. */
  predicate Present(o: Option<Value>)
  {
    o.Some? && Truthy(o.value)
  }

  /** `null` or `undefined`. */
  predicate Nullish(o: Option<Value>)
  {
    o.None? || o.value.Null?
  }

  /** The `a ?? b` operator. */
  function Coalesce(a: Option<Value>, b: Option<Value>): (r: Option<Value>)
    ensures !Nullish(a) ==> r == a
    ensures Nullish(a) ==> r == b
  {
    if Nullish(a) then b else a
  }

  /** `typeof v === "object"` (true of `null`, arrays and objects). */
  predicate IsObjectType(v: Value)
  {
    v.Null? || v.Arr? || v.Obj?
  }

  // ---------------------------------------------------------------- decimal

  predicate IsDigit(c: char)
  {
    '0' <= c <= '9'
  }

  predicate AllDigits(s: string)
  {
    forall i :: 0 <= i < |s| ==> IsDigit(s[i])
  }

  function DigitChar(d: nat): (c: char)
    requires d < 10
    ensures IsDigit(c) && (c as int) - ('0' as int) == d
  {
    ((d + '0' as int) as char)
  }

  /** The decimal numeral of a natural number, as `String(n)` prints it. */
  function DecimalString(n: nat): (s: string)
    ensures |s| > 0 && AllDigits(s)
  {
    if n < 10 then [DigitChar(n)] else DecimalString(n / 10) + [DigitChar(n % 10)]
  }

  /** The value of a string of decimal digits (leading zeros allowed). */
  function ParseDigits(s: string): nat
    requires AllDigits(s)
  {
    if s == [] then 0
    else ParseDigits(s[..|s| - 1]) * 10 + ((s[|s| - 1] as int) - ('0' as int))
  }

  /** An array index as a property key: digits without a leading zero. */
  predicate IsCanonicalIndex(key: string)
  {
    |key| > 0 && AllDigits(key) && (key[0] != '0' || key == "0")
  }

  lemma {:induction false} DecimalStringRoundTrip(n: nat)
    ensures ParseDigits(DecimalString(n)) == n
    ensures IsCanonicalIndex(DecimalString(n))
  {
    if n >= 10 {
      DecimalStringRoundTrip(n / 10);
      var s := DecimalString(n);
      assert s[..|s| - 1] == DecimalString(n / 10);
    }
  }

  lemma DecimalStringInjective()
    ensures forall i: nat, j: nat :: DecimalString(i) == DecimalString(j) ==> i == j
  {
    forall i: nat, j: nat | DecimalString(i) == DecimalString(j) ensures i == j {
      DecimalStringRoundTrip(i);
      DecimalStringRoundTrip(j);
    }
  }

  /** `String(i)` for an integer. */
  function IntString(i: int): (s: string)
    ensures i >= 0 ==> s == DecimalString(i)
    ensures i < 0 ==> s == "-" + DecimalString(-i)
  {
    if i < 0 then "-" + DecimalString(-i) else DecimalString(i)
  }

  // ------------------------------------------------------ property access

  /** The element of a string or array named by a canonical index key, if in range. */
  predicate IndexIn(key: string, len: nat)
  {
    IsCanonicalIndex(key) && ParseDigits(key) < len
  }

  /**
   * `v[key]` on a non-nullish value: own properties of objects, and the
   * index and `length` properties of strings and arrays.
   */
  function GetProp(v: Value, key: string): (r: Option<Value>)
    ensures v.Obj? ==> (r.Some? <==> key in v.fields)
    ensures v.Null? || v.Bool? || v.Num? ==> r.None?
  {
    match v
    case Obj(m) => if key in m then Some(m[key]) else None
    case Arr(items) =>
      if key == "length" then Some(Num(|items| as real))
      else if IndexIn(key, |items|) then Some(items[ParseDigits(key)])
      else None
    case Str(s) =>
      if key == "length" then Some(Num(|s| as real))
      else if IndexIn(key, |s|) then Some(Str([s[ParseDigits(key)]]))
      else None
    case _ => None
  }

  /** Optional chaining `o?.[key]`: `undefined` when `o` is nullish. */
  function Field(o: Option<Value>, key: string): (r: Option<Value>)
    ensures Nullish(o) ==> r.None?
    ensures !Nullish(o) ==> r == GetProp(o.value, key)
  {
    if Nullish(o) then None else GetProp(o.value, key)
  }

  /** A record field, `r.key` (`undefined` when absent). */
  function Get(r: Record, key: string): (o: Option<Value>)
    ensures o.Some? <==> key in r
    ensures key in r ==> o.value == r[key]
  {
    if key in r then Some(r[key]) else None
  }

  /** The index properties of an array: `"0"`, `"1"`, … to its elements. */
  function ArrayEntries(items: seq<Value>): (m: Record)
    ensures forall key :: key in m ==> GetProp(Arr(items), key) == Some(m[key])
  {
    DecimalStringInjective();
    var m := map i | 0 <= i < |items| :: DecimalString(i) := items[i];
    assert forall key :: key in m ==> GetProp(Arr(items), key) == Some(m[key]) by {
      forall key | key in m ensures GetProp(Arr(items), key) == Some(m[key]) {
        var i :| 0 <= i < |items| && DecimalString(i) == key;
        DecimalStringRoundTrip(i);
      }
    }
    m
  }

  /** The index properties of a string: `"0"`, `"1"`, … to its one-character strings. */
  function StringEntries(s: string): (m: Record)
    ensures forall key :: key in m ==> GetProp(Str(s), key) == Some(m[key])
  {
    DecimalStringInjective();
    var m := map i | 0 <= i < |s| :: DecimalString(i) := Str([s[i]]);
    assert forall key :: key in m ==> GetProp(Str(s), key) == Some(m[key]) by {
      forall key | key in m ensures GetProp(Str(s), key) == Some(m[key]) {
        var i :| 0 <= i < |s| && DecimalString(i) == key;
        DecimalStringRoundTrip(i);
      }
    }
    m
  }

  /** The own enumerable properties copied by the spread `{...v}`. */
  function Spread(v: Value): (m: Record)
    ensures v.Obj? ==> m == v.fields
    ensures v.Null? || v.Bool? || v.Num? ==> m == map[]
    ensures forall key :: key in m ==> GetProp(v, key) == Some(m[key])
  {
    match v
    case Obj(fields) => fields
    case Arr(items) => ArrayEntries(items)
    case Str(s) => StringEntries(s)
    case _ => map[]
  }

  // ---------------------------------------------------------- strings

  /** ECMAScript WhiteSpace and LineTerminator code points, as `trim` removes them. */
  predicate IsJsSpace(c: char)
  {
    c == '\t' || c == '\n' || c == '\U{000B}' || c == '\U{000C}' || c == '\r' ||
    c == ' ' || c == '\U{00A0}' || c == '\U{1680}' || ('\U{2000}' <= c <= '\U{200A}') ||
    c == '\U{2028}' || c == '\U{2029}' || c == '\U{202F}' || c == '\U{205F}' ||
    c == '\U{3000}' || c == '\U{FEFF}'
  }

  function TrimStart(s: string): (r: string)
    ensures |r| <= |s| && r == s[|s| - |r|..]
    ensures r != [] ==> !IsJsSpace(r[0])
    ensures forall i :: 0 <= i < |s| - |r| ==> IsJsSpace(s[i])
  {
    if s != [] && IsJsSpace(s[0]) then TrimStart(s[1..]) else s
  }

  function TrimEnd(s: string): (r: string)
    ensures |r| <= |s| && r == s[..|r|]
    ensures r != [] ==> !IsJsSpace(r[|r| - 1])
    ensures forall i :: |r| <= i < |s| ==> IsJsSpace(s[i])
  {
    if s != [] && IsJsSpace(s[|s| - 1]) then TrimEnd(s[..|s| - 1]) else s
  }

  /** `String.prototype.trim`. */
  function Trim(s: string): (r: string)
    ensures r != [] ==> !IsJsSpace(r[0]) && !IsJsSpace(r[|r| - 1])
    ensures |r| <= |s|
  {
    TrimEnd(TrimStart(s))
  }

  /**
   * ECMAScript ToNumber; `None` stands for NaN. An array is read through
   * its joined string: empty gives 0, two or more elements give a comma and
   * so NaN, and a single element is read as its own string (`null` as the
   * empty string, a boolean or plain object as text that is not a number).
   */
  function ToNumber(v: Value): (r: Option<real>)
    ensures v.Num? ==> r == Some(v.n)
    ensures v.Null? ==> r == Some(0.0)
    ensures v.Obj? ==> r.None?
    ensures v.Arr? && |v.items| == 0 ==> r == Some(0.0)
    ensures v.Arr? && |v.items| >= 2 ==> r.None?
    ensures v.Arr? && |v.items| == 1 ==>
      r == if v.items[0].Bool? || v.items[0].Obj? then None else ToNumber(v.items[0])
  {
    match v
    case Null => Some(0.0)
    case Bool(b) => Some(if b then 1.0 else 0.0)
    case Num(n) => Some(n)
    case Str(s) =>
      var t := Trim(s);
      if t == "" then Some(0.0)
      else if AllDigits(t) then Some(ParseDigits(t) as real)
      else None
    case Arr(items) =>
      if |items| == 0 then Some(0.0)
      else if |items| >= 2 then None
      else if items[0].Bool? || items[0].Obj? then None
      else ToNumber(items[0])
    case Obj(_) => None
  }
}
