/** Conversions between Python's `T | None` and the Rust-style `Option` of the
    rustshed library (jcx/rs/rs.py). */
module Rs {

  /** A Python value that may be `None` (`typing.Optional[T]`). */
  datatype Optional<T> = None | Val(value: T)

  /** rustshed's `Option`: `Null` or `Some(v)`. */
  datatype Option<T> = Null | Some(value: T)

  /** `rs_option`: Optional => Option. */
  function RsOption<T>(v: Optional<T>): (r: Option<T>)
    ensures r.Null? <==> v.None?
  {
    if v.None? then Null else Some(v.value)
  }

  /** `rs_option_cloned`: Optional => Option, wrapping a clone of the value.
      `clone` is the record's `clone()` (a deep copy). */
  function RsOptionCloned<T>(v: Optional<T>, clone: T -> T): (r: Option<T>)
    ensures r.Null? <==> v.None?
    ensures r.Some? ==> r.value == clone(v.value)
  {
    if v.None? then Null else Some(clone(v.value))
  }

  /** `py_optional`: Option => Optional. */
  function PyOptional<T>(o: Option<T>): (r: Optional<T>)
    ensures r.None? <==> o.Null?
  {
    if o.Null? then None else Val(o.value)
  }

  /** Python has a single `None`: a `T | None` whose `T` is itself
      `U | None` is just `U | None`. */
  function Flatten<U>(v: Optional<Optional<U>>): (r: Optional<U>)
    ensures v.Val? ==> r == v.value
    ensures v.None? ==> r.None?
  {
    if v.None? then None else v.value
  }

  /** The two documented cases of `rs_option`: `None` gives `Null`, a value
      `v` gives `Some(v)`. */
  lemma RsOptionCases<T>(v: Optional<T>)
    ensures v.None? ==> RsOption(v) == Null
    ensures v.Val? ==> RsOption(v) == Some(v.value)
  {
  }

  /** The two documented cases of `py_optional`. */
  lemma PyOptionalCases<T>(o: Option<T>)
    ensures o.Null? ==> PyOptional(o) == None
    ensures o.Some? ==> PyOptional(o) == Val(o.value)
  {
  }

  /** `py_optional(rs_option(v)) == v` for every Python value. */
  lemma PyOfRs<T>(v: Optional<T>)
    ensures PyOptional(RsOption(v)) == v
  {
  }

  /** `rs_option(py_optional(o)) == o` when the payload type has no `None`. */
  lemma RsOfPy<T>(o: Option<T>)
    ensures RsOption(PyOptional(o)) == o
  {
  }

  /** With a `None` inside (`Some(None)`), `py_optional` cannot be undone:
      Python sees the same `None` for `Some(None)` and for `Null`. */
  lemma SomeNoneIsLost<U>(someNone: Option<Optional<U>>, nothing: Option<Optional<U>>)
    requires someNone == Some(None) && nothing == Null
    ensures someNone != nothing
    ensures Flatten(PyOptional(someNone)) == Flatten(PyOptional(nothing))
  {
  }

  /** `rs_option_cloned` agrees with `rs_option` whenever the clone is equal
      to the original, as a deep copy of a record is. */
  lemma ClonedIsRsOption<T>(v: Optional<T>, clone: T -> T)
    requires forall x :: clone(x) == x
    ensures RsOptionCloned(v, clone) == RsOption(v)
  {
  }
}
