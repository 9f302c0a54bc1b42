/** Shared vocabulary: optional values, results carrying the JavaScript error
    message text, identifiers, timestamps and small string helpers. */
module Base {

  /** An opaque row identifier as the store hands it out. */
  type Id = string

  /** A point in time as produced by `new Date()`; the clock itself is a
      parameter of every operation that stamps a row. */
  type Time = nat

  datatype Option<+T> = None | Some(value: T)

  /** The outcome of a service call: a value, or the `message` of the Error the
      service throws. Controllers switch on that message text, so it is kept
      verbatim. */
  datatype Result<+T> = Ok(value: T) | Err(message: string) {
    predicate IsFailure() { Err? }

    function PropagateFailure<U>(): Result<U>
      requires Err?
    {
      Err(message)
    }

    function Extract(): T
      requires Ok?
    {
      value
    }
  }

  /** The `catch (err) { throw new Error(msg) }` wrapper that every service
      puts around its store access: any failure becomes `msg`. */
  function Rethrow<T>(r: Result<T>, msg: string): (r': Result<T>)
    ensures r'.Ok? <==> r.Ok?
    ensures r.Ok? ==> r' == r
    ensures r'.Err? ==> r'.message == msg
  {
    if r.Ok? then r else Err(msg)
  }

  /** JavaScript's `String.prototype.startsWith`. */
  predicate StartsWith(s: string, prefix: string) {
    |prefix| <= |s| && s[..|prefix|] == prefix
  }

  lemma StartsWithConcat(prefix: string, rest: string)
    ensures StartsWith(prefix + rest, prefix)
  {
    assert (prefix + rest)[..|prefix|] == prefix;
  }

  /** The prefix a service puts before a Joi message when validation fails. */
  const ValidationPrefix: string := "Validation error"

  /** The message `throw new Error(`Validation error: ${detail}`)` produces. */
  function ValidationMessage(detail: string): (m: string)
    ensures StartsWith(m, ValidationPrefix)
  {
    StartsWithConcat(ValidationPrefix, ": " + detail);
    ValidationPrefix + ": " + detail
  }

  /** A message starting with "Validation error" is never one of the plain
      messages "X not found" or "Error …ing X" the services throw. */
  predicate IsValidationMessage(m: string) {
    StartsWith(m, ValidationPrefix)
  }
}
