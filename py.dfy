/**
 * The few Python notions the schema and reference code relies on:
 * values that are compared with `==` and tested for truth, optional
 * results, and the exceptions the modelled operations raise.
 */
module Py {

  datatype Option<+T> = None | Some(value: T)

  /** The exceptions raised by the modelled operations. */
  datatype Error =
    | SchemaException
    | ReferenceException
    | KeyError
    | ValueError
    | AttributeError

  /** An operation that either completes or raises. */
  datatype Outcome = Pass | Fail(error: Error)

  /** An operation that either returns a value or raises. */
  datatype Result<+T> = Success(value: T) | Failure(error: Error)

  /**
   * A Python value as far as the model needs one: `None`, the scalar
   * types, byte strings (`str`), `unicode` strings, and other objects
   * identified by `id`.
   * `isLayer` says whether such an object provides the layer interface
   * (initializeInstance, initializeField, cleanupField, cleanupInstance).
   */
  datatype Value =
    | NoneValue
    | Bool(b: bool)
    | Int(i: int)
    | Str(s: string)
    | Unicode(s: string)
    | Obj(id: nat, isLayer: bool)

  /** Python truth testing: `None`, `False`, `0` and `''` are false. */
  predicate Truthy(v: Value)
  {
    match v
    case NoneValue => false
    case Bool(b) => b
    case Int(i) => i != 0
    case Str(s) => s != ""
    case Unicode(s) => s != ""
    case Obj(_, _) => true
  }

  /** The integer a value stands for when Python compares it with an int. */
  function AsInt(b: bool): int
  {
    if b then 1 else 0
  }

  /**
   * Python's `==` on these values: `bool` is a subclass of `int`, so
   * `False == 0` and `True == 1`; a `str` equals the `unicode` string of
   * the same characters; everything else compares structurally, and
   * objects by identity.
   */
  predicate Equal(a: Value, b: Value)
  {
    match (a, b)
    case (Bool(x), Int(y)) => AsInt(x) == y
    case (Int(x), Bool(y)) => x == AsInt(y)
    case (Str(x), Unicode(y)) => x == y
    case (Unicode(x), Str(y)) => x == y
    case _ => a == b
  }

  /** The characters of a `str` or `unicode` value, which find the same dictionary key. */
  function Text(v: Value): (r: Option<string>)
    ensures r.Some? <==> v.Str? || v.Unicode?
    ensures r.Some? ==> r.value == v.s
  {
    match v
    case Str(s) => Some(s)
    case Unicode(s) => Some(s)
    case _ => None
  }
}
