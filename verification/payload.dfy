/**
 The parameter bag a command handler receives. Python passes whatever the
 parser produced; the theme normaliser accepts four shapes (None, a string,
 a list or tuple, a mapping), so the model restricts payloads to those
 shapes and restricts the values inside them to scalars and lists.
 */
module Payload {
  import opened Text

  /** A scalar Python value. */
  datatype Atom = Null | Flag(b: bool) | Num(n: int) | Str(s: string)

  /** A value stored under a mapping key: a scalar, or a list/tuple of values. */
  datatype Value = Scalar(a: Atom) | Items(items: seq<Value>)

  /** The four payload shapes. */
  datatype Payload =
    | PNone
    | PStr(s: string)
    | PList(elems: seq<Atom>)
    | PMap(fields: map<string, Value>)

  function S(s: string): Value {
    Scalar(Str(s))
  }

  /** Python truthiness. */
  predicate AtomTruthy(a: Atom) {
    match a
    case Null => false
    case Flag(b) => b
    case Num(n) => n != 0
    case Str(s) => s != ""
  }

  predicate Truthy(v: Value) {
    match v
    case Scalar(a) => AtomTruthy(a)
    case Items(xs) => xs != []
  }

  predicate PayloadTruthy(p: Payload) {
    match p
    case PNone => false
    case PStr(s) => s != ""
    case PList(xs) => xs != []
    case PMap(m) => m != map[]
  }

  /** Python's `str(a)` for a scalar. */
  function AtomStr(a: Atom): string {
    match a
    case Null => "None"
    case Flag(b) => if b then "True" else "False"
    case Num(n) => IntToDec(n)
    case Str(s) => s
  }

  /** A list of strings as list values, as Python's `str.split()` returns them. */
  function StrValues(ws: seq<string>): (vs: seq<Value>)
    ensures |vs| == |ws|
    ensures forall k :: 0 <= k < |ws| ==> vs[k] == S(ws[k])
  {
    seq(|ws|, k requires 0 <= k < |ws| => S(ws[k]))
  }
}
