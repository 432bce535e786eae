/** JavaScript values, promise settlements and rejection reasons, as far as
    the remote-build client observes them. */
module Js {

  datatype Option<+T> = None | Some(value: T)

  /** A value the client handles: an option value, a decoded JSON document,
      a progress message, a build number. JSON arrays are represented as
      objects keyed by index; `Stream` stands for the archive stream that is
      sent as a request body. */
  datatype JsValue =
    | Undefined
    | Null
    | Bool(b: bool)
    | Num(n: int)
    | Str(s: string)
    | Obj(fields: map<string, JsValue>)
    | Stream

  /** Every reason a promise of the system can be rejected with. */
  datatype Error =
    | ServerReturned(code: int)       // `server returned <status>`
    | NetworkFailure(reason: string)  // the HTTP request itself failed
    | InvalidBody                     // a body announced as JSON does not parse
    | TypeError(property: string)     // a property read on undefined or null
    | NotAFunction(name: string)      // a call of a method the object lacks
    | InvalidArgument(callee: string) // a built-in refused its argument
    | BuildTimeout                    // `build timeout`
    | BuildFailed(status: JsValue)    // `Build failed: <status>`
    | WriteFailed(reason: string)     // writing a local file failed
    | ReadFailed(reason: string)      // reading or parsing an input file failed

  /** The eventual state of a promise: `Pending` is a promise that never settles. */
  datatype Settled<+T, +E> = Resolved(value: T) | Rejected(reason: E) | Pending

  /** Passes a rejection or a pending state on to a chained promise of another type. */
  function Propagate<T, U, E>(s: Settled<T, E>): (r: Settled<U, E>)
    requires !s.Resolved?
  {
    if s.Rejected? then Rejected(s.reason) else Pending
  }

  /** JavaScript truthiness (`if (v)`, `v || d`). */
  predicate Truthy(v: JsValue) {
    match v
    case Undefined => false
    case Null => false
    case Bool(b) => b
    case Num(n) => n != 0
    case Str(s) => s != ""
    case Obj(_) => true
    case Stream => true
  }

  /** `a === b`: primitives compare by value; two objects decoded from two
      responses are never the same object. */
  predicate StrictEquals(a: JsValue, b: JsValue) {
    a == b && !a.Obj?
  }

  /** Numeric conversion for a relational comparison; `None` is NaN. */
  function ToNumber(v: JsValue): (r: Option<int>)
    ensures v.Num? ==> r == Some(v.n)
    ensures v.Undefined? || v.Obj? ==> r == None
  {
    match v
    case Num(n) => Some(n)
    case Null => Some(0)
    case Bool(b) => Some(if b then 1 else 0)
    case _ => None
  }

  /** `x > limit` for a number `x`; every comparison with NaN is false. */
  predicate Exceeds(x: int, limit: JsValue) {
    match ToNumber(limit)
    case Some(t) => x > t
    case None => false
  }

  /** The decimal digits of a natural number. */
  function Digits(n: nat): (r: string)
    ensures |r| > 0
    ensures forall i :: 0 <= i < |r| ==> '0' <= r[i] <= '9'
    decreases n
  {
    var d := [('0' as int + n % 10) as char];
    if n < 10 then d else Digits(n / 10) + d
  }

  /** The decimal value of a string of digits (the reading partner of `Digits`). */
  function DigitsValue(s: string): int
  {
    if s == [] then 0 else 10 * DigitsValue(s[..|s| - 1]) + (s[|s| - 1] as int - '0' as int)
  }

  lemma {:induction false} DigitsRoundTrip(n: nat)
    ensures DigitsValue(Digits(n)) == n
    decreases n
  {
    var d := [('0' as int + n % 10) as char];
    if n >= 10 {
      DigitsRoundTrip(n / 10);
      var s := Digits(n / 10) + d;
      assert s[..|s| - 1] == Digits(n / 10);
    }
  }

  /** String conversion in a template literal (`${ v }`). */
  function ToStr(v: JsValue): (r: string)
    ensures v.Str? ==> r == v.s
    ensures v.Num? && v.n >= 0 ==> DigitsValue(r) == v.n
  {
    match v
    case Undefined => "undefined"
    case Null => "null"
    case Bool(b) => if b then "true" else "false"
    case Num(n) =>
      if n < 0 then "-" + Digits(-n)
      else DigitsRoundTrip(n); Digits(n)
    case Str(s) => s
    case Obj(_) => "[object Object]"
    case Stream => "[object Object]"
  }

  /** Property lookup on a plain object: a missing key reads as `undefined`. */
  function Get(m: map<string, JsValue>, key: string): (r: JsValue)
    ensures key in m ==> r == m[key]
    ensures key !in m ==> r == Undefined
  {
    if key in m then m[key] else Undefined
  }

  /** `v[key]` on any value: reading a property of `undefined` or `null`
      throws a TypeError; primitives have none of the properties read here. */
  function Property(v: JsValue, key: string): Settled<JsValue, Error>
  {
    match v
    case Undefined => Rejected(TypeError(key))
    case Null => Rejected(TypeError(key))
    case Obj(m) => Resolved(Get(m, key))
    case _ => Resolved(Undefined)
  }

  /** A property read settles at once; it fails exactly on `undefined` and
      `null`, and on an object it is the lookup of the key. */
  lemma PropertyCases(v: JsValue, key: string)
    ensures !Property(v, key).Pending?
    ensures Property(v, key).Rejected? <==> v == Undefined || v == Null
    ensures Property(v, key).Rejected? ==> Property(v, key).reason == TypeError(key)
    ensures v.Obj? ==> Property(v, key) == Resolved(Get(v.fields, key))
  {
  }

  /** `Object.assign(target, source)`: every own property of `source`,
      including one whose value is `undefined`, overwrites the target's. */
  function Assign(target: map<string, JsValue>, source: map<string, JsValue>): (r: map<string, JsValue>)
    ensures r.Keys == target.Keys + source.Keys
    ensures forall k :: k in source ==> r[k] == source[k]
    ensures forall k :: k in target && k !in source ==> r[k] == target[k]
  {
    target + source
  }
}
