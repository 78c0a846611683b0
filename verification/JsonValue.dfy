/** JSON documents, with Python's own equality beside the structural one. */
module JsonValue {

  datatype Option<+T> = None | Some(value: T)

  /** A returned value or a raised exception. */
  datatype Result<+T> = Ok(value: T) | Err(error: Error)

  datatype Error =
    | KeyError
    | TypeError
    | ValueError
    | IntegrityError
    | RuntimeError
    | OverflowError

  datatype Json =
    | Null
    | Bool(b: bool)
    | Num(n: int)
    | Str(s: string)
    | Arr(items: seq<Json>)
    | Obj(fields: map<string, Json>)

  type Dict = map<string, Json>

  function Get(d: Dict, key: string): Option<Json> {
    if key in d then Some(d[key]) else None
  }

  /** A Python number: `True` and `1` are the same number. */
  function AsNumber(v: Json): Option<int> {
    match v
    case Bool(b) => Some(if b then 1 else 0)
    case Num(n) => Some(n)
    case _ => None
  }

  /** Python's `==`: structural, except that booleans compare as numbers. */
  predicate PyEq(a: Json, b: Json) {
    match (a, b)
    case (Obj(f), Obj(g)) => f.Keys == g.Keys && forall k | k in f :: PyEq(f[k], g[k])
    case (Arr(f), Arr(g)) => |f| == |g| && forall i | 0 <= i < |f| :: PyEq(f[i], g[i])
    case _ => if AsNumber(a).Some? then AsNumber(a) == AsNumber(b) else a == b
  }

  /** `==` on two dictionaries. */
  predicate PyEqDict(a: Dict, b: Dict) {
    a.Keys == b.Keys && forall k | k in a :: PyEq(a[k], b[k])
  }

  lemma {:induction false} PyEqReflexive(a: Json)
    ensures PyEq(a, a)
  {
    match a
    case Obj(f) => forall k | k in f { PyEqReflexive(f[k]); }
    case Arr(f) => forall i | 0 <= i < |f| { PyEqReflexive(f[i]); }
    case _ =>
  }

  lemma {:induction false} PyEqSymmetric(a: Json, b: Json)
    ensures PyEq(a, b) == PyEq(b, a)
  {
    match (a, b)
    case (Obj(f), Obj(g)) =>
      if f.Keys == g.Keys {
        forall k | k in f ensures PyEq(f[k], g[k]) == PyEq(g[k], f[k]) { PyEqSymmetric(f[k], g[k]); }
      }
    case (Arr(f), Arr(g)) =>
      if |f| == |g| {
        forall i | 0 <= i < |f| ensures PyEq(f[i], g[i]) == PyEq(g[i], f[i]) { PyEqSymmetric(f[i], g[i]); }
      }
    case _ =>
  }
}
