/** The JavaScript values that reach the validators and the token gate, with the coercions they apply. */
module JsValues {
  import opened Wrappers
  import opened Decimal

  /** Numbers are integers here (amounts in cents, ids); NaN is the absent result of `ToNumber`. */
  datatype JsValue = Undefined | Null | Bool(b: bool) | Num(n: int) | Str(s: string)

  /** ECMAScript ToBoolean: `undefined`, `null`, `false`, `0` and `""` are falsy. */
  predicate Truthy(v: JsValue)
  {
    match v
    case Undefined => false
    case Null => false
    case Bool(b) => b
    case Num(n) => n != 0
    case Str(s) => s != []
  }

  predicate IsNullish(v: JsValue) { v.Undefined? || v.Null? }

  function TrimEnd(s: string): (r: string)
    ensures |r| <= |s| && r == s[..|r|]
  {
    if s != [] && IsJsSpace(s[|s| - 1]) then TrimEnd(s[..|s| - 1]) else s
  }

  /** Number applied to a string: trimmed, "" is 0, an optionally signed run of digits is its value. */
  function StringToNumber(s: string): Option<int>
  {
    var t := TrimEnd(TrimStart(s));
    if t == [] then Some(0)
    else if t[0] == '-' && |t| > 1 && AllDigits(t[1..]) then Some(-(DigitsValue(t[1..]) as int))
    else if t[0] == '+' && |t| > 1 && AllDigits(t[1..]) then Some(DigitsValue(t[1..]))
    else if AllDigits(t) then Some(DigitsValue(t))
    else None
  }

  /** `Number` reads the decimal text of a key back as that key. */
  lemma {:induction false} StringToNumberOfDigits(n: nat)
    ensures StringToNumber(ToDigits(n)) == Some(n)
  {
    var d := ToDigits(n);
    ToDigitsRoundTrip(n);
    assert d != [] && !IsJsSpace(d[0]) && !IsJsSpace(d[|d| - 1]);
    assert TrimStart(d) == d;
    assert TrimEnd(d) == d;
  }

  /** ECMAScript `Number(v)`; `None` stands for NaN. */
  function ToNumber(v: JsValue): (r: Option<int>)
    ensures v.Num? ==> r == Some(v.n)
    ensures v.Undefined? ==> r == None
    ensures v.Null? ==> r == Some(0)
  {
    match v
    case Undefined => None
    case Null => Some(0)
    case Bool(b) => Some(if b then 1 else 0)
    case Num(n) => Some(n)
    case Str(s) => StringToNumber(s)
  }
}
