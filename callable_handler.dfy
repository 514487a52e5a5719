/**
 * `Welder::Support::CallableHandler`: the stand-alone mixin that asserts every
 * value of an argument list responds to `call`, raising
 * `Welder::Support::CallableExpectedError` otherwise.
 */
module CallableHandler {
  import opened Wrappers
  import opened Candidates

  /** `Welder::Support::CallableExpectedError`, with its message. */
  datatype CallableExpectedError = CallableExpectedError(message: string)

  /** What the message of this copy of the check asks of every value. */
  const Requirement := "'call'"

  /**
   * `callable!(*lambdas)`: passes exactly when every value is callable;
   * otherwise raises, naming the offending values in argument order.
   */
  function AssertCallable<C>(lambdas: seq<Candidate<C>>): (r: Outcome<CallableExpectedError>)
    ensures lambdas == [] ==> r.Pass?
    ensures r.Pass? <==> AllCallable(lambdas)
    ensures r.Fail? ==> r.error.message == Complaint(Offenders(lambdas), Requirement)
  {
    var nonCallable := Offenders(lambdas);
    if nonCallable == [] then Pass
    else Fail(CallableExpectedError(Complaint(nonCallable, Requirement)))
  }

  /** Adding a callable anywhere never turns a failure into a pass, nor changes its message. */
  lemma CallableNeverRescues<C>(a: seq<Candidate<C>>, c: C, b: seq<Candidate<C>>)
    ensures AssertCallable(a + [Callable(c)] + b) == AssertCallable(a + b)
  {
    CallableIgnored(a, c, b);
  }

  /**
   * One non-callable anywhere makes the whole check fail, however many callables
   * surround it, and the message lists it between the offenders before and after it.
   */
  lemma OneOffenderFails<C>(a: seq<Candidate<C>>, n: string, b: seq<Candidate<C>>)
    ensures AssertCallable(a + [NotCallable(n)] + b)
      == Fail(CallableExpectedError(Complaint(Offenders(a) + [n] + Offenders(b), Requirement)))
  {
    NotCallableNamed(a, n, b);
  }

  /**
   * The message names every non-callable argument, at the position that follows
   * "Expected " and the names of the offenders before it, and it names nothing
   * but non-callable arguments.
   */
  lemma MessageNamesOffenders<C>(lambdas: seq<Candidate<C>>, i: nat)
    requires i < |lambdas| && lambdas[i].NotCallable?
    ensures AssertCallable(lambdas).Fail?
    ensures var k := |Offenders(lambdas[..i])|;
      k < |Offenders(lambdas)| && Offenders(lambdas)[k] == lambdas[i].name &&
      var o := 9 + Offset(Offenders(lambdas), Separator, k);
      var msg := AssertCallable(lambdas).error.message;
      o + |lambdas[i].name| <= |msg| && msg[o..o + |lambdas[i].name|] == lambdas[i].name
    ensures forall n :: n in Offenders(lambdas) ==> exists j :: 0 <= j < |lambdas| && lambdas[j] == NotCallable(n)
  {
    OffenderIndex(lambdas, i);
    ComplaintNames(Offenders(lambdas), Requirement, |Offenders(lambdas[..i])|);
    OffendersNamed(lambdas);
  }

  /** Two offenders are listed in their argument order, separated by ", ". */
  lemma OffendersInOrder<C>(a: seq<Candidate<C>>, n1: string, m: seq<Candidate<C>>, n2: string, b: seq<Candidate<C>>)
    requires AllCallable(a) && AllCallable(m) && AllCallable(b)
    ensures AssertCallable(a + [NotCallable(n1)] + m + [NotCallable(n2)] + b)
      == Fail(CallableExpectedError("Expected " + n1 + ", " + n2 + " to respond to 'call'"))
  {
    var args := a + [NotCallable(n1)] + m + [NotCallable(n2)] + b;
    assert args == a + [NotCallable(n1)] + (m + [NotCallable(n2)] + b);
    NotCallableNamed(a, n1, m + [NotCallable(n2)] + b);
    NotCallableNamed(m, n2, b);
    assert Offenders(args) == [n1, n2];
    assert [n1, n2][1..] == [n2];
    assert Join([n1, n2], Separator) == n1 + ", " + n2;
    assert Complaint([n1, n2], Requirement) == "Expected " + n1 + ", " + n2 + " to respond to 'call'";
  }
}
