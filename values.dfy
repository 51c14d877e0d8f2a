// The objects report expressions evaluate to, with Java's `null` made explicit.
module Values {

  datatype Option<+T> = None | Some(value: T)

  /** A value produced by an expression; equality is structural, standing for `Object.equals`. */
  datatype Value = Number(n: int) | Text(s: string) | Flag(b: bool)

  /** A possibly-null object reference. */
  type Obj = Option<Value>

  /** The null-aware inequality that decides whether a group has broken:
      `old == null && est != null`, or `old != null && !old.equals(est)`.
      Two nulls count as unchanged. */
  function Differs(oldValue: Obj, estimatedValue: Obj): (r: bool)
    ensures r <==> oldValue != estimatedValue
    ensures oldValue == None && estimatedValue == None ==> !r
  {
    match oldValue
    case None => estimatedValue.Some?
    case Some(o) => !(estimatedValue.Some? && estimatedValue.value == o)
  }
}
