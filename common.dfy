/**
 * Value types shared by every module of the lending model: optional values,
 * guard outcomes, results, JavaScript truthiness of optional fields and the
 * millisecond clock arithmetic the backend uses for day counts.
 */
module Common {

  /** An optional value; `None` stands for JavaScript `undefined` or `null`. */
  datatype Option<+T> = None | Some(value: T)

  /** The outcome of an ordered guard chain: `Pass`, or the first check that failed. */
  datatype Outcome<+E> = Pass | Fail(error: E)

  /** A value, or the error an operation throws instead of returning it. */
  datatype Result<+T, +E> = Ok(value: T) | Err(error: E)

  /** One day in milliseconds: 1000 * 60 * 60 * 24. */
  const DAY_MS: int := 86400000

  /** `Math.ceil(a / b)` on integers (b != 0). */
  function CeilDiv(a: int, b: int): (r: int)
    requires b != 0
    ensures b > 0 ==> (r - 1) * b < a <= r * b
    ensures b < 0 ==> r * b <= a < (r - 1) * b
  {
    if b > 0 then
      var q := (-a) / b;
      assert q * b <= -a < q * b + b;
      -q
    else
      var q := a / (-b);
      assert q * (-b) <= a < q * (-b) + (-b);
      -q
  }

  /** Day counts of the backend: `Math.ceil(ms / (1000 * 60 * 60 * 24))`. */
  function CeilDays(ms: int): (r: int)
    ensures (r - 1) * DAY_MS < ms <= r * DAY_MS
    ensures r > 0 <==> ms > 0
    ensures ms >= 0 ==> r >= 0
  {
    CeilDiv(ms, DAY_MS)
  }

  /** Truthiness of an optional number: absent, `null` and `0` are falsy. */
  predicate TruthyInt(x: Option<int>) {
    x.Some? && x.value != 0
  }

  predicate TruthyNat(x: Option<nat>) {
    x.Some? && x.value != 0
  }

  predicate TruthyReal(x: Option<real>) {
    x.Some? && x.value != 0.0
  }

  /** Truthiness of an optional string: absent, `null` and `""` are falsy. */
  predicate TruthyStr(x: Option<string>) {
    x.Some? && x.value != ""
  }

  /** `s || null` for a string `s`. */
  function OrNull(s: string): Option<string> {
    if s == "" then None else Some(s)
  }

  /** `x || null` for an optional string. */
  function OptOrNull(x: Option<string>): Option<string> {
    if TruthyStr(x) then x else None
  }

  /** `x || null` for an optional id: `0` is falsy. */
  function IdOrNull(x: Option<nat>): Option<nat> {
    if TruthyNat(x) then x else None
  }

  /** `a || b` on optional ids: the first one that is truthy, else null. */
  function FirstTruthy(a: Option<nat>, b: Option<nat>): Option<nat> {
    if TruthyNat(a) then a else if TruthyNat(b) then b else None
  }
}
