/** Swift's `Optional` and the `OptionalType` protocol that lets validators be
    constrained to optional-typed properties. */
module OptionalType {

  /** `Optional<Wrapped>`: `None` is Swift's `nil`. */
  datatype Option<+T> = None | Some(value: T) {

    /** The `??` operator: the wrapped value, or `default` when `nil`. */
    function GetOr(default: T): (r: T)
      ensures Some? ==> r == value
      ensures None? ==> r == default
    {
      match this
      case Some(v) => v
      case None => default
    }
  }

  /** `wrapped`: the optional value seen as an optional of its wrapped type. */
  function Wrapped<W>(x: Option<W>): (r: Option<W>)
    ensures x.None? ==> r.None?
    ensures x.Some? ==> r == Some(x.value)
  {
    match x
    case None => None
    case Some(w) => Some(w)
  }

  /** `makeOptionalType`: rebuilds the optional from an optional of its wrapped type. */
  function MakeOptionalType<W>(wrapped: Option<W>): (r: Option<W>)
    ensures r == wrapped
  {
    wrapped
  }

  /** Building an optional and reading it back loses nothing, in both orders. */
  lemma WrappedRoundTrip<W>(x: Option<W>)
    ensures Wrapped(MakeOptionalType(x)) == x
    ensures MakeOptionalType(Wrapped(x)) == x
  {
  }
}
