/** JavaScript notions the deployment code relies on: optional values, Error
    objects, how an awaited call settles, the state of an async function's
    promise, and the decimal text a number gets inside a template literal. */
module Js {

  datatype Option<+T> = None | Some(value: T) {
    /** The value, or `default` when there is none. */
    function GetOr(default: T): T {
      match this
      case Some(v) => v
      case None => default
    }
  }

  /** An Error object as the code reads it: the `code` the AWS SDK attaches
      to service errors (absent on a plain `new Error(message)`) and the
      message. */
  datatype Error = Error(code: Option<string>, message: string)

  /** `new Error(message)`. */
  function Raise(message: string): (e: Error)
    ensures e.code == None && e.message == message
  {
    Error(None, message)
  }

  /** How an awaited call ends: fulfilled with a value, or rejected. */
  datatype Settled<+T> = Fulfilled(value: T) | Rejected(error: Error)

  /** The state of the promise an async function returns, as far as its
      inputs determine it: resolved, rejected (`Thrown`), or still pending
      because a reply it waits for was never given. */
  datatype Outcome<+T> = Resolved(value: T) | Thrown(error: Error) | Pending {
    /** The same outcome with the resolved value forgotten (an async
        function that returns nothing). */
    function Void(): (o: Outcome<()>)
      ensures o.Resolved? <==> Resolved?
      ensures o.Thrown? <==> Thrown?
      ensures Thrown? ==> o.error == error
    {
      match this
      case Resolved(_) => Resolved(())
      case Thrown(e) => Thrown(e)
      case Pending => Pending
    }
  }

  /** The character of one decimal digit. */
  function Digit(d: nat): (c: char)
    requires d < 10
    ensures '0' <= c <= '9'
    ensures (c as int) - ('0' as int) == d
  {
    (('0' as int) + d) as char
  }

  predicate IsDigits(s: string) {
    forall i :: 0 <= i < |s| ==> '0' <= s[i] <= '9'
  }

  /** `${n}` for a non-negative integer below 10^21: its decimal digits,
      most significant first, without leading zeros. (From 10^21 on,
      JavaScript prints a number in exponent notation, which this does not
      model.) */
  function Decimal(n: nat): (s: string)
    ensures |s| >= 1 && IsDigits(s)
    ensures |s| > 1 ==> s[0] != '0'
    decreases n
  {
    if n < 10 then [Digit(n)] else Decimal(n / 10) + [Digit(n % 10)]
  }

  /** The number a string of decimal digits denotes (the inverse of Decimal). */
  function DigitsValue(s: string): nat
    requires IsDigits(s)
    decreases |s|
  {
    if s == [] then 0
    else DigitsValue(s[..|s| - 1]) * 10 + ((s[|s| - 1] as int) - ('0' as int))
  }

  lemma {:induction false} DecimalRoundTrip(n: nat)
    ensures DigitsValue(Decimal(n)) == n
    decreases n
  {
    if n >= 10 {
      DecimalRoundTrip(n / 10);
      var s := Decimal(n);
      assert s[..|s| - 1] == Decimal(n / 10);
    }
  }

  /** Different numbers print differently. */
  lemma DecimalInjective(m: nat, n: nat)
    ensures Decimal(m) == Decimal(n) ==> m == n
  {
    DecimalRoundTrip(m);
    DecimalRoundTrip(n);
  }
}
