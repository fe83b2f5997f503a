/** Option, where None plays the part of JavaScript's `undefined`. */
module Wrappers {

  datatype Option<+T> = None | Some(value: T)
}

/**
 * The small part of JavaScript's value semantics that the page script relies
 * on: truthiness, conversion to string, `String.prototype.trim` and
 * `substring`.
 */
module Js {
  import opened Wrappers

  /**
   * A JSON primitive. A number is kept as its canonical JavaScript string
   * form (what `String(n)` gives), which fixes the number up to the sign of
   * zero, the one distinction the script never observes.
   */
  datatype Value = Null | Bool(b: bool) | Str(s: string) | Num(text: string)

  /** A JSON object with primitive properties; a missing key reads as `undefined`. */
  type Object = map<string, Value>

  /** The property read `o[key]`. */
  function Prop(o: Object, key: string): Option<Value>
  {
    if key in o then Some(o[key]) else None
  }

  /** JavaScript's ToBoolean: `null`, `false`, `""`, `0` and `NaN` are falsy. */
  predicate Truthy(v: Value)
  {
    match v
    case Null => false
    case Bool(b) => b
    case Str(s) => s != ""
    case Num(t) => t != "0" && t != "NaN"
  }

  /** A property that is defined and truthy: what `if (x.p)` and `x.p ? … : …` test. */
  predicate Present(p: Option<Value>)
  {
    p.Some? && Truthy(p.value)
  }

  /** ToString, as template literals, `+` on strings, `img.src = …` and `alert` apply it. */
  function ToStr(v: Value): string
  {
    match v
    case Null => "null"
    case Bool(b) => if b then "true" else "false"
    case Str(s) => s
    case Num(t) => t
  }

  /** ToString of a property read: `undefined` prints as "undefined". */
  function PropText(p: Option<Value>): string
  {
    if p.Some? then ToStr(p.value) else "undefined"
  }

  /** The string form of `p || fallback` for a string `fallback`. */
  function OrElse(p: Option<Value>, fallback: string): (r: string)
    ensures Present(p) ==> r == ToStr(p.value)
    ensures !Present(p) ==> r == fallback
  {
    if Present(p) then ToStr(p.value) else fallback
  }

  /** The string an assignment to an input's `value` stores: `null` stores "". */
  function ValueText(v: Value): string
  {
    if v.Null? then "" else ToStr(v)
  }

  /** ECMAScript WhiteSpace and LineTerminator: the code points `trim` removes. */
  predicate IsSpace(c: char)
  {
    var n := c as int;
    n == 0x09 || n == 0x0A || n == 0x0B || n == 0x0C || n == 0x0D || n == 0x20 ||
    n == 0xA0 || n == 0x1680 || (0x2000 <= n <= 0x200A) || n == 0x2028 ||
    n == 0x2029 || n == 0x202F || n == 0x205F || n == 0x3000 || n == 0xFEFF
  }

  /** `s.trim() === ''`. */
  predicate Blank(s: string)
  {
    forall i | 0 <= i < |s| :: IsSpace(s[i])
  }

  /** `s.substring(0, n)`: the first `n` characters, or all of `s` when it is shorter. */
  function Prefix(s: string, n: nat): (r: string)
    ensures |r| == if |s| < n then |s| else n
    ensures r <= s
  {
    if |s| <= n then s else s[..n]
  }
}
