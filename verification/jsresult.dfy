/**
 * The web client's `Result<T>` class: a pair of a possibly-undefined result
 * and a possibly-undefined error string, with no tag of its own. `isOk` and
 * `isErr` look at which half is defined, so `Ok(undefined)` is neither.
 * Callbacks are pure functions here; which callback ran, and with what, is
 * part of each operation's result.
 */
module JsResult {
  import opened Wrappers

  /** A JavaScript value that may be `undefined`. */
  datatype Js<+T> = Undefined | Defined(value: T)

  datatype JsResult<+T> = JsResult(result: Js<T>, error: Js<string>)

  /** `Result.Ok(result)`; the argument itself may be `undefined`. */
  function Ok<T>(result: Js<T>): (r: JsResult<T>)
    ensures r.error.Undefined? && r.result == result
  {
    JsResult(result, Undefined)
  }

  /** `Result.Err(error)`. */
  function Err<T>(error: string): (r: JsResult<T>)
    ensures r.result.Undefined? && r.error == Defined(error)
  {
    JsResult(Undefined, Defined(error))
  }

  predicate IsOk<T>(r: JsResult<T>) {
    r.result.Defined?
  }

  predicate IsErr<T>(r: JsResult<T>) {
    r.error.Defined?
  }

  /** What a call did: return a value or throw an `Error` with a message. */
  datatype Outcome<+T> = Returned(value: T) | Threw(message: string)

  const UnhandledPrefix: string := "Unhandled error: "

  /** `unwrap`: throws when the error half is set, otherwise returns the result half, defined or not. */
  function Unwrap<T>(r: JsResult<T>): (u: Outcome<Js<T>>)
    ensures u.Threw? <==> IsErr(r)
    ensures u.Threw? ==> u.message == UnhandledPrefix + r.error.value
    ensures u.Returned? ==> u.value == r.result
  {
    if IsErr(r) then Threw(UnhandledPrefix + r.error.value) else Returned(r.result)
  }

  /** The handler `match` invoked and the argument it was given. */
  datatype Dispatch<+T> = CalledOk(value: T) | CalledErr(error: Js<string>)

  /**
   * `match`: the `ok` handler gets the unwrapped value when `isOk`, and
   * otherwise the `err` handler gets the error half cast to a string (which
   * is `undefined` for `Ok(undefined)`). Unwrap cannot throw on the ok path
   * because no constructor sets both halves.
   */
  function MatchDispatch<T>(r: JsResult<T>): (d: Dispatch<T>)
    requires !(IsOk(r) && IsErr(r))
    ensures d.CalledOk? <==> IsOk(r)
    ensures d.CalledOk? ==> Unwrap(r) == Returned(Defined(d.value))
    ensures d.CalledErr? ==> d.error == r.error
  {
    if IsOk(r) then CalledOk(r.result.value) else CalledErr(r.error)
  }

  /** `match` itself returns whatever the invoked handler returned. */
  function Match<T, R>(r: JsResult<T>, ok: T -> R, err: Js<string> -> R): R
    requires !(IsOk(r) && IsErr(r))
  {
    match MatchDispatch(r)
    case CalledOk(v) => ok(v)
    case CalledErr(e) => err(e)
  }

  /** `ifOk`: the value the callback was called with, if any, and the boolean returned. */
  function IfOk<T>(r: JsResult<T>): (p: (Option<T>, bool))
    requires !(IsOk(r) && IsErr(r))
    ensures p.1 <==> IsOk(r)
    ensures p.0.Some? <==> p.1
    ensures p.0.Some? ==> r.result == Defined(p.0.value)
  {
    if IsOk(r) then
      match Unwrap(r)
      case Returned(v) => (Some(v.value), true)
    else (None, false)
  }

  /** One run of `andThen`: the value `op` was called with, if any, and what `andThen` returned. */
  datatype AndThenRun<T, U> = AndThenRun(opCalledWith: Option<T>, returned: Js<JsResult<U>>)

  /**
   * `andThen` as written: it calls `match` with handlers that call `op` or
   * build an `Err`, but has no `return`, so the caller always receives
   * `undefined`.
   */
  function AndThen<T, U>(r: JsResult<T>, op: T -> JsResult<U>): (a: AndThenRun<T, U>)
    requires !(IsOk(r) && IsErr(r))
    ensures a.opCalledWith.Some? <==> IsOk(r)
  {
    var opCall := match MatchDispatch(r) case CalledOk(v) => Some(v) case CalledErr(_) => None;
    var _ := Match(r, op, (e: Js<string>) => JsResult(Undefined, e));
    AndThenRun(opCall, Undefined)
  }

  /** `andThen` with the `match` value returned, as its signature and its tests expect. */
  function AndThenFixed<T, U>(r: JsResult<T>, op: T -> JsResult<U>): (a: AndThenRun<T, U>)
    requires !(IsOk(r) && IsErr(r))
    ensures a.opCalledWith.Some? <==> IsOk(r)
    ensures a.returned.Defined?
  {
    var opCall := match MatchDispatch(r) case CalledOk(v) => Some(v) case CalledErr(_) => None;
    AndThenRun(opCall, Defined(Match(r, op, (e: Js<string>) => JsResult(Undefined, e))))
  }

  /** `Ok` of a defined value is ok and not an error; `Err` is an error and not ok. */
  lemma OkAndErrClassify<T>(v: T, e: string)
    ensures IsOk(Ok(Defined(v))) && !IsErr(Ok(Defined(v)))
    ensures IsErr(Err<T>(e)) && !IsOk(Err<T>(e))
  {
  }

  /** `Ok(undefined)` is neither ok nor an error: `match` sends it to `err` with an undefined error. */
  lemma OkUndefinedIsNeither<T>()
    ensures !IsOk(Ok<T>(Undefined)) && !IsErr(Ok<T>(Undefined))
    ensures MatchDispatch(Ok<T>(Undefined)) == CalledErr(Undefined)
  {
  }

  /** The constructors never set both halves, so every operation above may be applied to their results. */
  lemma ConstructorsNeverBoth<T>(v: Js<T>, e: string)
    ensures !(IsOk(Ok(v)) && IsErr(Ok(v)))
    ensures !(IsOk(Err<T>(e)) && IsErr(Err<T>(e)))
  {
  }

  /** `unwrap` gives back what `Ok` was given, and throws "Unhandled error: <e>" for `Err(e)`. */
  lemma UnwrapInvertsConstructors<T>(v: Js<T>, e: string)
    ensures Unwrap(Ok(v)) == Returned(v)
    ensures Unwrap(Err<T>(e)) == Threw("Unhandled error: " + e)
  {
  }

  /** `match` invokes exactly one handler: `ok` for `Ok(v)`, `err` for `Err(e)`, with the value or error. */
  lemma MatchCallsOneHandler<T, R>(v: T, e: string, ok: T -> R, err: Js<string> -> R)
    ensures MatchDispatch(Ok(Defined(v))) == CalledOk(v)
    ensures Match(Ok(Defined(v)), ok, err) == ok(v)
    ensures MatchDispatch(Err<T>(e)) == CalledErr(Defined(e))
    ensures Match(Err<T>(e), ok, err) == err(Defined(e))
  {
  }

  /** `ifOk` runs the callback with the value and says true exactly for `Ok(v)`. */
  lemma IfOkOnConstructors<T>(v: T, e: string)
    ensures IfOk(Ok(Defined(v))) == (Some(v), true)
    ensures IfOk(Err<T>(e)) == (None, false)
  {
  }

  /** Neither version of `andThen` calls `op` on an error. */
  lemma AndThenSkipsOpOnErr<T, U>(e: string, op: T -> JsResult<U>)
    ensures AndThen(Err<T>(e), op).opCalledWith.None?
    ensures AndThenFixed(Err<T>(e), op).opCalledWith.None?
  {
  }

  /** As written, `andThen` returns `undefined` even for `Ok(v)`, so the caller cannot unwrap `op`'s result. */
  lemma AndThenLosesResult<T, U>(v: T, op: T -> JsResult<U>)
    ensures AndThen(Ok(Defined(v)), op).opCalledWith == Some(v)
    ensures AndThen(Ok(Defined(v)), op).returned == Undefined
  {
  }

  /**
   * The corrected `andThen` returns `op(v)` for `Ok(v)` and the same error for
   * `Err(e)`, which is what the two unit tests check.
   */
  lemma AndThenFixedChains<T, U>(v: T, e: string, op: T -> JsResult<U>)
    ensures AndThenFixed(Ok(Defined(v)), op) == AndThenRun(Some(v), Defined(op(v)))
    ensures AndThenFixed(Err<T>(e), op) == AndThenRun(None, Defined(Err<U>(e)))
  {
  }

  /** The first unit test: `Ok("Fish").andThen(Ok)` unwraps to "Fish" only with the corrected version. */
  lemma FishExample()
    ensures var op := (s: string) => Ok(Defined(s));
      && AndThenFixed(Ok(Defined("Fish")), op).returned == Defined(Ok(Defined("Fish")))
      && Unwrap(AndThenFixed(Ok(Defined("Fish")), op).returned.value) == Returned(Defined("Fish"))
      && AndThen(Ok(Defined("Fish")), op).returned.Undefined?
  {
  }
}
