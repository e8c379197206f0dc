/** JSON values, and the equality of JSON Schema on them. */
module JsonModel {
  import opened Bytes
  import opened Options

  const MAX_SIGNIFICAND := 0x1F_FFFF_FFFF_FFFF
  const MIN_EXPONENT := -1074
  const MAX_EXPONENT := 971

  function Scaled(m: int, e: int): real {
    if e >= 0 then m as real * Pow2(e) as real else m as real / Pow2(-e) as real
  }

  /** `r` is the finite IEEE 754 double with significand `m` and exponent `e`. */
  predicate IsScaled(r: real, m: int, e: int) {
    -MAX_SIGNIFICAND <= m <= MAX_SIGNIFICAND && MIN_EXPONENT <= e <= MAX_EXPONENT && r == Scaled(m, e)
  }

  ghost predicate IsDouble(r: real) {
    exists m, e :: IsScaled(r, m, e)
  }

  lemma ZeroIsDouble()
    ensures IsDouble(0.0)
  {
    assert IsScaled(0.0, 0, 0);
  }

  /** What a JSON number with a fraction or exponent is read as. */
  type Double = r: real | IsDouble(r) witness (ZeroIsDouble(); 0.0)

  /** A number is written as an integer or with a fraction or exponent; `Int(1)` and `Float(1.0)` are different
      documents and the same number. */
  datatype Json =
    | Null
    | Bool(b: bool)
    | Int(n: int)
    | Float(r: Double)
    | Str(s: string)
    | Arr(items: seq<Json>)
    | Obj(fields: map<string, Json>)

  /** The member of an object; nothing else has members. */
  function Get(j: Json, key: string): Option<Json> {
    if j.Obj? && key in j.fields then Some(j.fields[key]) else None
  }

  predicate IsNumber(j: Json) {
    j.Int? || j.Float?
  }

  function NumberOf(j: Json): real
    requires IsNumber(j)
  {
    if j.Int? then j.n as real else j.r
  }

  /** Equality of instances: numbers by value, arrays in order, objects by key. */
  predicate Same(a: Json, b: Json) {
    match a
    case Int(_) => IsNumber(b) && NumberOf(a) == NumberOf(b)
    case Float(_) => IsNumber(b) && NumberOf(a) == NumberOf(b)
    case Arr(xs) => b.Arr? && |xs| == |b.items| && forall i :: 0 <= i < |xs| ==> Same(xs[i], b.items[i])
    case Obj(m) => b.Obj? && m.Keys == b.fields.Keys && forall k :: k in m ==> Same(m[k], b.fields[k])
    case _ => a == b
  }

  lemma {:induction false} SameIsReflexive(a: Json)
    ensures Same(a, a)
  {
    match a
    case Arr(xs) => forall i | 0 <= i < |xs| ensures Same(xs[i], xs[i]) { SameIsReflexive(xs[i]); }
    case Obj(m) => forall k | k in m ensures Same(m[k], m[k]) { SameIsReflexive(m[k]); }
    case _ =>
  }
}
