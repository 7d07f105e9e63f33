/** The `Result` tagged union (`{ok: true, val}` or `{ok: false, err}`) and
    the helpers that turn an error result into a thrown `Error`. */
module Results {
  import opened Js

  /** `Ok(val)` builds `{ok: true, val}`, `Err(err)` builds `{ok: false, err}`.
      `Ok()` with no argument is `Ok(())`: its `val` is `undefined`, written
      here as the unit value. */
  datatype Result<+T, +E> = Ok(val: T) | Err(err: E) {
    /** The `ok` discriminant: it alone tells whether `val` or `err` is present. */
    predicate IsOk() { Ok? }
  }

  /** `Ok(v)` has `ok` true and `val` equal to `v`, `Err(e)` has `ok` false and
      `err` equal to `e`, and every result is one of the two, as its `ok`
      field says. */
  lemma ConstructorFields<T, E>(v: T, e: E, r: Result<T, E>)
    ensures Result<T, E>.Ok(v).IsOk() && Result<T, E>.Ok(v).val == v
    ensures !Result<T, E>.Err(e).IsOk() && Result<T, E>.Err(e).err == e
    ensures r.IsOk() ==> r == Ok(r.val)
    ensures !r.IsOk() ==> r == Err(r.err)
  {
  }

  /** The message `unwrap` and `assert` use by default. */
  function UnexpectedMessage<E>(err: E, show: E -> string): string
  {
    "Unexpected error result: " + show(err)
  }

  /** `unwrap(result)`: the value of an `Ok`, and a thrown `Error` naming the
      error (as `show` renders it in a template literal) for an `Err`. */
  function Unwrap<T, E>(r: Result<T, E>, show: E -> string): (c: Completion<T>)
    ensures c.Normal? <==> r.IsOk()
    ensures r.IsOk() ==> c.value == r.val
    ensures !r.IsOk() ==> c.exc == Error(UnexpectedMessage(r.err, show))
  {
    if r.IsOk() then Normal(r.val) else Throw(Error(UnexpectedMessage(r.err, show)))
  }

  /** `expect(result, message)`: like `unwrap`, but the thrown `Error` carries
      exactly the caller's message. */
  function Expect<T, E>(r: Result<T, E>, message: string): (c: Completion<T>)
    ensures c.Normal? <==> r.IsOk()
    ensures r.IsOk() ==> c.value == r.val
    ensures !r.IsOk() ==> c.exc == Error(message)
  {
    if r.IsOk() then Normal(r.val) else Throw(Error(message))
  }

  /** `assert(result, message?)`: returns normally exactly for an `Ok`;
      otherwise throws with the given message, or the default one when the
      message is absent (`??` keeps an empty message). */
  function Assert<T, E>(r: Result<T, E>, message: Option<string>, show: E -> string): (c: Completion<()>)
    ensures c.Normal? <==> r.IsOk()
    ensures !r.IsOk() && message.Some? ==> c.exc == Error(message.value)
    ensures !r.IsOk() && message.None? ==> c.exc == Error(UnexpectedMessage(r.err, show))
  {
    if !r.IsOk() then
      Throw(Error(match message case Some(m) => m case None => UnexpectedMessage(r.err, show)))
    else Normal(())
  }

  /** `unwrap` and `expect` agree on every `Ok` result, whatever the message,
      and both throw an `Error` on every `Err` result. */
  lemma UnwrapExpectAgree<T, E>(r: Result<T, E>, message: string, show: E -> string)
    ensures r.IsOk() ==> Unwrap(r, show) == Expect(r, message) == Normal(r.val)
    ensures !r.IsOk() ==> Unwrap(r, show).exc.Error? && Expect(r, message).exc.Error?
  {
  }

  /** `assert` with no message throws the same error `unwrap` throws, and
      `assert` succeeds exactly where `expect` returns. */
  lemma AssertMatchesUnwrap<T, E>(r: Result<T, E>, message: string, show: E -> string)
    ensures Assert(r, None, show).Throw? ==> Assert(r, None, show).exc == Unwrap(r, show).exc
    ensures Assert(r, Some(message), show).Normal? <==> Expect(r, message).Normal?
    ensures Assert(r, Some(message), show).Throw? ==> Assert(r, Some(message), show).exc == Expect(r, message).exc
  {
  }
}
