/**
 * crates/nargo-core/src/error.rs: a string-carrying error and the
 * `context` / `with_context` combinators that put a line of context in
 * front of an error's message, separated by `": "`.
 *
 * `impl Display` arguments are given as the strings they display as; the
 * display of a foreign error type is a function parameter.
 */
module Errors {
  import opened Wrappers

  datatype Error = Error(msg: string)

  const SEPARATOR: string := ": "

  /** `Error::from_string`: the message is kept as given. */
  function FromString(msg: string): (e: Error)
    ensures e.msg == msg
  {
    Error(msg)
  }

  /** `ext_context_inner`: the context, `": "`, then the inner message. */
  function ExtContextInner(context: string, inner: string): (e: Error)
    ensures |e.msg| == |context| + |SEPARATOR| + |inner|
    ensures e.msg[..|context|] == context
    ensures e.msg[|context|..|context| + |SEPARATOR|] == SEPARATOR
    ensures e.msg[|context| + |SEPARATOR|..] == inner
  {
    Error(context + SEPARATOR + inner)
  }

  /** The inner message can be read back from the extended one. */
  lemma ExtContextInnerInjective(context: string, a: string, b: string)
    ensures ExtContextInner(context, a) == ExtContextInner(context, b) ==> a == b
  {
    if ExtContextInner(context, a) == ExtContextInner(context, b) {
      assert ExtContextInner(context, a).msg[|context| + |SEPARATOR|..] == a;
    }
  }

  /** `Result::context` for a `Result` already carrying an `Error`. */
  function Context<T>(r: Result<T, Error>, context: string): (r': Result<T, Error>)
    ensures r.Ok? ==> r' == r
    ensures r.Err? ==> r'.Err? && r'.error == ExtContextInner(context, r.error.msg)
  {
    match r
    case Ok(v) => Ok(v)
    case Err(e) => Err(ExtContextInner(context, e.msg))
  }

  /** `Result::context` for a foreign error type `E`, converted through its
      display string first. */
  function ContextForeign<T, E>(r: Result<T, E>, display: E -> string, context: string): (r': Result<T, Error>)
    ensures r.Ok? ==> r' == Ok(r.value)
    ensures r.Err? ==> r' == Err(ExtContextInner(context, display(r.error)))
  {
    match r
    case Ok(v) => Ok(v)
    case Err(e) => Context(Err(FromString(display(e))), context)
  }

  /** `Result::with_context`: the closure is consulted on the error path
      only, and the result is as if its value had been given to `context`. */
  function WithContext<T>(r: Result<T, Error>, context: () -> string): (r': Result<T, Error>)
    ensures r.Ok? ==> r' == r
    ensures r.Err? ==> r' == Context(r, context())
  {
    match r
    case Ok(v) => Ok(v)
    case Err(e) => Err(ExtContextInner(context(), e.msg))
  }

  /** `Option::context`: `None` becomes an error whose message is exactly
      the context. */
  function OptionContext<T>(o: Option<T>, context: string): (r: Result<T, Error>)
    ensures o.Some? <==> r.Ok?
    ensures o.Some? ==> r.value == o.value
    ensures o.None? ==> r.error.msg == context
  {
    match o
    case Some(v) => Ok(v)
    case None => Err(FromString(context))
  }

  /** `Option::with_context` */
  function OptionWithContext<T>(o: Option<T>, context: () -> string): (r: Result<T, Error>)
    ensures r == OptionContext(o, context())
  {
    match o
    case Some(v) => Ok(v)
    case None => Err(FromString(context()))
  }

  /** Contexts stack outermost first: `c2: c1: msg`. */
  lemma ContextChain<T>(r: Result<T, Error>, c1: string, c2: string)
    requires r.Err?
    ensures Context(Context(r, c1), c2).error.msg == c2 + SEPARATOR + c1 + SEPARATOR + r.error.msg
  {
    assert c2 + SEPARATOR + (c1 + SEPARATOR + r.error.msg) == c2 + SEPARATOR + c1 + SEPARATOR + r.error.msg;
  }

  /** A context never hides the message it wraps: it stays at the end. */
  lemma ContextKeepsMessage<T>(r: Result<T, Error>, context: string)
    requires r.Err?
    ensures var m := Context(r, context).error.msg;
      |r.error.msg| <= |m| && m[|m| - |r.error.msg|..] == r.error.msg
  {
  }
}
