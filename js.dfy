/** The slice of JavaScript's value model that client/ecc.js depends on: exceptions,
    the values a JSON document parses to, property reads, property-key conversion
    and the decimal rendering of a number in string concatenation. */
module Js {

  /** An exception thrown by the facade or by one of its collaborators. */
  datatype Error =
    | TypeError              // a property read on null/undefined, or a string method on a non-string
    | Thrown(reason: string) // anything a collaborator throws, carried unchanged

  /** The string generate throws, as a `Thrown` reason, for an unrecognised type sentinel. */
  const UNKNOWN_TYPE_MESSAGE := "eccjs: generate: Unknown type"

  /** A computation that either returns a value or throws. */
  datatype Result<+T> = Ok(value: T) | Err(error: Error)

  datatype Option<+T> = None | Some(value: T)

  /** A JavaScript value as far as this code inspects it: what `JSON.parse` yields, and
      undefined. A number is known only by the string it turns into. */
  datatype Value =
    | Undefined
    | Null
    | Bool(b: bool)
    | Num(text: string)
    | Str(s: string)
    | Arr(elems: seq<Value>)
    | Obj(fields: map<string, Value>)

  /** The property key a value stands for in `dict[v]` (ToPropertyKey, which for these
      values is ToString). An object converts through its `toString`: a parsed object's
      own `toString` field is never callable, and the `valueOf` that comes next yields
      the object itself, so such an object throws a TypeError; any other object gives
      "[object Object]". An array joins its elements' strings with ",", null and
      undefined elements giving "", and throws when one of them throws. */
  function PropertyKey(v: Value): (r: Result<string>)
    ensures v.Undefined? ==> r == Ok("undefined")
    ensures v.Null? ==> r == Ok("null")
    ensures v.Bool? ==> r == Ok(if v.b then "true" else "false")
    ensures v.Str? ==> r == Ok(v.s)
    ensures v.Num? ==> r == Ok(v.text)
    ensures v.Obj? ==> (r.Err? <==> "toString" in v.fields)
    ensures v.Obj? && "toString" !in v.fields ==> r == Ok("[object Object]")
    ensures r.Err? ==> r.error == TypeError
    decreases v, 1
  {
    match v
    case Undefined => Ok("undefined")
    case Null => Ok("null")
    case Bool(b) => Ok(if b then "true" else "false")
    case Num(text) => Ok(text)
    case Str(s) => Ok(s)
    case Arr(_) => JoinFrom(v, 0)
    case Obj(fields) => if "toString" in fields then Err(TypeError) else Ok("[object Object]")
  }

  /** The string an array element contributes to `Array.prototype.join`. */
  function ElementString(e: Value): (r: Result<string>)
    ensures e.Null? || e.Undefined? ==> r == Ok("")
    ensures !(e.Null? || e.Undefined?) ==> r == PropertyKey(e)
    decreases e, 2
  {
    if e.Null? || e.Undefined? then Ok("") else PropertyKey(e)
  }

  /** The elements of array `v` from index `i` on, joined with ",". */
  function JoinFrom(v: Value, i: nat): (r: Result<string>)
    requires v.Arr? && i <= |v.elems|
    ensures r.Err? ==> r.error == TypeError
    decreases v, 0, |v.elems| - i
  {
    if i == |v.elems| then Ok("")
    else
      match ElementString(v.elems[i])
      case Err(e) => Err(e)
      case Ok(head) =>
        if i + 1 == |v.elems| then Ok(head)
        else
          match JoinFrom(v, i + 1)
          case Err(e) => Err(e)
          case Ok(tail) => Ok(head + "," + tail)
  }

  /** Joining from `i` throws exactly when one of the remaining elements does. */
  lemma {:induction false} JoinFromThrows(v: Value, i: nat)
    requires v.Arr? && i <= |v.elems|
    ensures JoinFrom(v, i).Err? <==> exists j :: i <= j < |v.elems| && ElementString(v.elems[j]).Err?
    decreases |v.elems| - i
  {
    if i < |v.elems| && i + 1 < |v.elems| {
      JoinFromThrows(v, i + 1);
    }
  }

  /** An array used as a property key throws exactly when one of its elements does;
      an empty array is the empty key, and a one-element array is its element's string. */
  lemma ArrayPropertyKey(v: Value)
    requires v.Arr?
    ensures PropertyKey(v).Err? <==> exists j :: 0 <= j < |v.elems| && ElementString(v.elems[j]).Err?
    ensures |v.elems| == 0 ==> PropertyKey(v) == Ok("")
    ensures |v.elems| == 1 ==> PropertyKey(v) == ElementString(v.elems[0])
  {
    JoinFromThrows(v, 0);
  }

  /** `v.name`: reading a property of null or undefined throws a TypeError; a missing
      property, or a property of a primitive, reads as undefined. */
  function ReadField(v: Value, name: string): (r: Result<Value>)
    ensures r.Err? <==> v.Null? || v.Undefined?
    ensures r.Err? ==> r.error == TypeError
    ensures v.Obj? && name in v.fields ==> r == Ok(v.fields[name])
    ensures v.Obj? && name !in v.fields ==> r == Ok(Undefined)
    ensures !(v.Obj? || v.Null? || v.Undefined?) ==> r == Ok(Undefined)
  {
    match v
    case Undefined => Err(TypeError)
    case Null => Err(TypeError)
    case Obj(fields) => Ok(if name in fields then fields[name] else Undefined)
    case _ => Ok(Undefined)
  }

  predicate IsDigit(c: char)
  {
    '0' <= c <= '9'
  }

  predicate AllDigits(s: string)
  {
    forall i :: 0 <= i < |s| ==> IsDigit(s[i])
  }

  function Digit(d: nat): (c: char)
    requires d < 10
    ensures IsDigit(c) && c as int - '0' as int == d
  {
    ('0' as int + d) as char
  }

  /** The string a non-negative integer below 10^21 becomes when it is concatenated with
      a string: decimal digits, most significant first, with no leading zero. From 10^21
      on JavaScript writes exponent form; no curve size comes near that. */
  function NumberToString(n: nat): (r: string)
    ensures |r| >= 1 && AllDigits(r)
    ensures r[0] == '0' ==> n == 0
  {
    if n < 10 then [Digit(n)] else NumberToString(n / 10) + [Digit(n % 10)]
  }

  /** The value a string of decimal digits denotes; the inverse of NumberToString. */
  function ParseDecimal(s: string): nat
    requires AllDigits(s)
  {
    if s == [] then 0 else ParseDecimal(s[..|s| - 1]) * 10 + (s[|s| - 1] as int - '0' as int)
  }

  lemma {:induction false} ParseNumberToString(n: nat)
    ensures ParseDecimal(NumberToString(n)) == n
  {
    var r := NumberToString(n);
    if n >= 10 {
      ParseNumberToString(n / 10);
      assert r[..|r| - 1] == NumberToString(n / 10);
    }
  }

  /** Two different numbers never render as the same string. */
  lemma NumberToStringInjective(m: nat, n: nat)
    ensures NumberToString(m) == NumberToString(n) <==> m == n
  {
    if NumberToString(m) == NumberToString(n) {
      ParseNumberToString(m);
      ParseNumberToString(n);
    }
  }

  /** A number renders as exactly three characters if and only if it lies in 100..999,
      the range of every curve size SJCL registers (192, 224, 256, 384, 521). */
  lemma {:induction false} NumberToStringLength3(n: nat)
    ensures |NumberToString(n)| == 3 <==> 100 <= n <= 999
  {
    NumberToStringLength(n);
  }

  lemma {:induction false} NumberToStringLength(n: nat)
    ensures n < 10 ==> |NumberToString(n)| == 1
    ensures 10 <= n < 100 ==> |NumberToString(n)| == 2
    ensures 100 <= n < 1000 ==> |NumberToString(n)| == 3
    ensures 1000 <= n ==> |NumberToString(n)| >= 4
  {
    if n >= 10 {
      NumberToStringLength(n / 10);
    }
  }
}
