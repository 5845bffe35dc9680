/**
 * chkErr: how the error returned by the scan is classified. The cause is
 * found by unwrapping github.com/pkg/errors wrappers (errors.Cause); nil,
 * a passed deadline and a cancellation let the program go on to the
 * summary, any other cause is fatal.
 */
module ScanResult {
  import opened Records

  /** A non-nil error value returned by the scan. */
  datatype Error =
    | DeadlineExceeded                        // context.DeadlineExceeded
    | Canceled                                // context.Canceled
    | Other(text: string)                     // any error that exposes no cause
    | Wrapped(message: string, cause: Error)  // pkg/errors withMessage: adds `message` before `cause`
    | Stack(cause: Error)                     // pkg/errors withStack: records a stack trace only

  /** err.Error(): a wrapper's text always ends with its cause's text. */
  function Text(e: Error): (t: string)
    ensures e.Stack? ==> t == Text(e.cause)
    ensures e.Wrapped? ==> |t| > |Text(e.cause)| && t[|t| - |Text(e.cause)|..] == Text(e.cause)
  {
    match e
    case DeadlineExceeded => "context deadline exceeded"
    case Canceled => "context canceled"
    case Other(text) => text
    case Wrapped(message, cause) => message + ": " + Text(cause)
    case Stack(cause) => Text(cause)
  }

  /** c is e itself or is reached from e by following the causes of wrappers. */
  ghost predicate InChain(c: Error, e: Error)
  {
    c == e || ((e.Wrapped? || e.Stack?) && InChain(c, e.cause))
  }

  /** Each chain holds exactly one error that is not a wrapper: the innermost one. */
  lemma {:induction false} InnermostIsUnique(c: Error, d: Error, e: Error)
    requires InChain(c, e) && !c.Wrapped? && !c.Stack?
    requires InChain(d, e) && !d.Wrapped? && !d.Stack?
    ensures c == d
  {
    if c != e && d != e {
      InnermostIsUnique(c, d, e.cause);
    }
  }

  /** errors.Cause: follow Cause() until an error that has none. */
  function Cause(e: Error): (c: Error)
    ensures InChain(c, e)
    ensures !c.Wrapped? && !c.Stack?
    ensures !e.Wrapped? && !e.Stack? ==> c == e
  {
    if e.Wrapped? || e.Stack? then Cause(e.cause) else e
  }

  /** What chkErr does: carry on after printing `output`, or stop the process with `message`. */
  datatype Outcome = Continue(output: string) | Fatal(message: string)

  /** chkErr (main.go:161-171); `None` is a nil error. */
  function ChkErr(err: Option<Error>): (o: Outcome)
    ensures o.Fatal? <==> err.Some? && Cause(err.value).Other?
    ensures o.Fatal? ==> o.message == Text(err.value)
    ensures err.None? ==> o == Continue("")
    ensures err.Some? && Cause(err.value) == DeadlineExceeded ==> o == Continue("done\n")
    ensures err.Some? && Cause(err.value) == Canceled ==> o == Continue("canceled\n")
  {
    match err
    case None => Continue("")
    case Some(e) =>
      match Cause(e)
      case DeadlineExceeded => Continue("done\n")
      case Canceled => Continue("canceled\n")
      case _ => Fatal(Text(e))
  }

  /** Wrapping an error never changes whether chkErr treats it as fatal, nor what it prints otherwise. */
  lemma {:induction false} WrappingKeepsClass(message: string, e: Error)
    ensures Cause(Wrapped(message, e)) == Cause(e) && Cause(Stack(e)) == Cause(e)
    ensures ChkErr(Some(Wrapped(message, e))).Fatal? == ChkErr(Some(e)).Fatal?
    ensures ChkErr(Some(e)).Continue? ==> ChkErr(Some(Wrapped(message, e))) == ChkErr(Some(e))
    ensures ChkErr(Some(Stack(e))) == ChkErr(Some(e))
  {
    assert Cause(Wrapped(message, e)) == Cause(e);
    assert Cause(Stack(e)) == Cause(e);
  }

  /** errors.WithStack(errors.New(x)) is fatal with the message x unchanged. */
  lemma StackKeepsMessage(x: string)
    ensures ChkErr(Some(Stack(Other(x)))) == Fatal(x)
  {
  }
}
