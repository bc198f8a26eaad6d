/** JavaScript values as the bot sees them: nullable fields, thrown errors and
    the truthiness rules that its `??`, `?:` and `if` tests rely on. */
module JsValues {

  /** A nullable value. `None` stands for both `null` and `undefined`, which
      every test in the bot (`??`, `?.` and truthiness) treats alike. */
  datatype Option<+T> = None | Some(value: T)

  /** The only error the modelled code can raise: reading a property of
      `null`, which JavaScript reports as a TypeError. */
  datatype TypeError = NullProperty(property: string)

  /** The outcome of an expression that may throw. */
  datatype Result<+T> = Ok(value: T) | Throw(error: TypeError)

  /** `o ?? d` */
  function OrElse<T>(o: Option<T>, d: T): T
  {
    match o
    case Some(v) => v
    case None => d
  }

  /** Truthiness of a nullable string: `null` and `""` are falsy. */
  predicate StringTruthy(s: Option<string>)
  {
    s.Some? && s.value != ""
  }

  /** Truthiness of a nullable integral number: `null` and `0` are falsy. */
  predicate NumberTruthy(n: Option<int>)
  {
    n.Some? && n.value != 0
  }

  /** Array.prototype.indexOf (and String.prototype.indexOf for a single
      character): the first position holding `x`, or -1 when none does. */
  function IndexOf<T(==)>(s: seq<T>, x: T): (r: int)
    ensures -1 <= r < |s|
    ensures r == -1 <==> x !in s
    ensures 0 <= r ==> s[r] == x && x !in s[..r]
  {
    if s == [] then -1
    else if s[0] == x then 0
    else
      var k := IndexOf(s[1..], x);
      assert k >= 0 ==> s[..k + 1] == [s[0]] + s[1..][..k];
      if k == -1 then -1 else k + 1
  }
}
