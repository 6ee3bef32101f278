/** Shared value types of the memory-graph engine: optional values, results,
    points, JavaScript numbers that may be NaN, and the numeric primitives of
    the JavaScript runtime (`Math.sqrt`, `Math.cos`, `Math.sin`, `parseFloat`),
    which the model receives as function values instead of defining them. */
module Base {

  datatype Option<T> = None | Some(value: T)

  datatype Result<T, E> = Success(value: T) | Failure(error: E)

  /** A JavaScript number: a real value or NaN. Infinities and rounding are not modelled. */
  datatype Num = Number(value: real) | NaN

  datatype Point = Point(x: real, y: real)

  /** The runtime's numeric primitives. `parseFloat` answers `None` where JavaScript answers NaN. */
  datatype Runtime = Runtime(
    sqrt: real -> real,
    cos: real -> real,
    sin: real -> real,
    parseFloat: string -> Option<real>)

  /** `sqrt` is the non-negative square root on the non-negative reals. */
  ghost predicate IsSqrt(sqrt: real -> real) {
    forall x :: 0.0 <= x ==> 0.0 <= sqrt(x) && sqrt(x) * sqrt(x) == x
  }

  /** `(cos t, sin t)` always lies on the unit circle. */
  ghost predicate OnUnitCircle(cos: real -> real, sin: real -> real) {
    forall t :: cos(t) * cos(t) + sin(t) * sin(t) == 1.0
  }

  /** The only facts about the runtime primitives that any proof here relies on. */
  ghost predicate Valid(rt: Runtime) {
    IsSqrt(rt.sqrt) && OnUnitCircle(rt.cos, rt.sin)
  }

  /** `Math.PI` as written by the JavaScript runtime. */
  const PI: real := 3.141592653589793

  /** `Math.min` on two numbers. */
  function Min(a: real, b: real): (r: real)
    ensures r <= a && r <= b
    ensures r == a || r == b
  {
    if a <= b then a else b
  }

  /** `Math.max` on two numbers. */
  function Max(a: real, b: real): (r: real)
    ensures a <= r && b <= r
    ensures r == a || r == b
  {
    if a >= b then a else b
  }

  /** `Math.max(lo, Math.min(hi, x))`, the clamp idiom of the source. */
  function Clamp(x: real, lo: real, hi: real): (r: real)
    requires lo <= hi
    ensures lo <= r <= hi
    ensures lo <= x <= hi ==> r == x
    ensures x < lo ==> r == lo
    ensures x > hi ==> r == hi
  {
    Max(lo, Min(hi, x))
  }

  /** The property names every plain object inherits from `Object.prototype`. Indexing an
      object literal with one of them, or testing it with `in`, finds the inherited member. */
  predicate IsInheritedName(name: string) {
    name in {
      "constructor", "toString", "toLocaleString", "valueOf", "hasOwnProperty",
      "isPrototypeOf", "propertyIsEnumerable", "__proto__", "__defineGetter__",
      "__defineSetter__", "__lookupGetter__", "__lookupSetter__"}
  }

  /** What indexing an object literal of strings gives when it finds something: one of
      its own string values, or an inherited member (a function, or the prototype object
      itself), which is truthy but not a string. */
  datatype Lookup = Text(text: string) | InheritedMember(name: string)

  /** JavaScript truthiness of an optional string: present and non-empty. */
  predicate Truthy(s: Option<string>) {
    s.Some? && s.value != ""
  }

  /** JavaScript truthiness of an optional number (NaN is not modelled): present and non-zero. */
  predicate TruthyReal(n: Option<real>) {
    n.Some? && n.value != 0.0
  }
}
