/**
 * `Welder::Pipeline`: an immutable sequence of single-argument steps. A step is
 * either a plain callable (a lambda, method, block, module or object answering
 * `call`, all of which behave as a total function here) or another pipeline,
 * whose `call` runs its own steps.
 */
module Pipelines {
  import opened Wrappers
  import opened Candidates

  datatype Step<!T> = Leaf(f: T -> T) | Nested(pipeline: Pipeline<T>)

  /** `@pipes`: the steps, in the order they run. */
  datatype Pipeline<!T> = Pipeline(steps: seq<Step<T>>)

  /** `Welder::Pipeline::CallableExpectedError`, with its message. */
  datatype CallableExpectedError = CallableExpectedError(message: string)

  /** What the message of this copy of the check asks of every value. */
  const Requirement := "'call(input)'"

  /** The private `callable!(*lambdas)` of the class. */
  function AssertCallable<T>(lambdas: seq<Candidate<Step<T>>>): (r: Outcome<CallableExpectedError>)
    ensures lambdas == [] ==> r.Pass?
    ensures r.Pass? <==> AllCallable(lambdas)
    ensures r.Fail? ==> r.error.message == Complaint(Offenders(lambdas), Requirement)
  {
    var nonCallable := Offenders(lambdas);
    if nonCallable == [] then Pass
    else Fail(CallableExpectedError(Complaint(nonCallable, Requirement)))
  }

  /** The optional block, as the list of steps it adds after the positional ones. */
  function BlockSteps<T>(block: Option<T -> T>): (s: seq<Step<T>>) {
    match block
    case None => []
    case Some(g) => [Leaf(g)]
  }

  /**
   * `Pipeline.new(*lambdas, &block)`: every positional argument is checked
   * before anything is stored, so either no pipeline is built or all of them
   * are its steps, in argument order, followed by the block when there is one.
   */
  function New<T>(lambdas: seq<Candidate<Step<T>>>, block: Option<T -> T>): (r: Result<Pipeline<T>, CallableExpectedError>)
    ensures r.Success? <==> AllCallable(lambdas)
    ensures r.Success? ==> |r.value.steps| == |lambdas| + (if block.Some? then 1 else 0)
    ensures r.Success? ==> forall i :: 0 <= i < |lambdas| ==> r.value.steps[i] == lambdas[i].callable
    ensures r.Success? && block.Some? ==> r.value.steps[|lambdas|] == Leaf(block.value)
    ensures r.Failure? ==> r.error == CallableExpectedError(Complaint(Offenders(lambdas), Requirement))
  {
    match AssertCallable(lambdas)
    case Fail(e) => Failure(e)
    case Pass => Success(Pipeline(Values(lambdas) + BlockSteps(block)))
  }

  /** One step of the fold: `e.call(a)`. A nested pipeline runs its own steps. */
  function Apply<T>(step: Step<T>, input: T): (output: T)
    decreases step
  {
    match step
    case Leaf(f) => f(input)
    case Nested(p) => Fold(p.steps, input)
  }

  /** `steps.reduce(input) { |a, e| e.call(a) }`: a left fold. */
  function Fold<T>(steps: seq<Step<T>>, input: T): (output: T)
    decreases steps
  {
    if steps == [] then input else Fold(steps[1..], Apply(steps[0], input))
  }

  /** `Pipeline#call(input)`. */
  function Call<T>(p: Pipeline<T>, input: T): (output: T) {
    Fold(p.steps, input)
  }

  /** Running two lists of steps one after the other is running their concatenation. */
  lemma {:induction false} FoldAppend<T>(a: seq<Step<T>>, b: seq<Step<T>>, input: T)
    ensures Fold(a + b, input) == Fold(b, Fold(a, input))
  {
    if a == [] {
      assert a + b == b;
    } else {
      assert (a + b)[0] == a[0];
      assert (a + b)[1..] == a[1..] + b;
      FoldAppend(a[1..], b, Apply(a[0], input));
    }
  }

  /**
   * `Pipeline#|(other)`: `self.class.new(self, other)`. The result is a fresh
   * pipeline whose two steps are this pipeline, unchanged, and `other`; a
   * non-callable `other` raises instead, and is the only value named.
   */
  function Compose<T>(p: Pipeline<T>, other: Candidate<Step<T>>): (r: Result<Pipeline<T>, CallableExpectedError>)
    ensures other.Callable? ==> r == Success(Pipeline([Nested(p), other.callable]))
    ensures other.NotCallable? ==> r == Failure(CallableExpectedError("Expected " + other.name + " to respond to " + Requirement))
  {
    var args := [Callable(Nested(p)), other];
    var r := New(args, None);
    if other.Callable? then
      assert r.value.steps == [Nested(p), other.callable];
      r
    else
      assert Offenders(args) == [other.name] by {
        assert args[1..] == [other];
        assert [other][1..] == [];
      }
      ComplaintSingle(other.name, Requirement);
      r
  }

  /** `p | next` for a `next` that is known to be callable. */
  function Then<T>(p: Pipeline<T>, next: Step<T>): (r: Pipeline<T>)
    ensures Compose(p, Callable(next)) == Success(r)
  {
    Pipeline([Nested(p), next])
  }

  /** `Pipeline.new` with no argument and no block is the identity. */
  lemma EmptyIsIdentity<T>(x: T)
    ensures New<T>([], None) == Success(Pipeline([]))
    ensures Call(New<T>([], None).value, x) == x
  {
  }

  /** `Pipeline.new(f).call(x) == f.call(x)`. */
  lemma SingleStep<T>(s: Step<T>, x: T)
    ensures New([Callable(s)], None) == Success(Pipeline([s]))
    ensures Call(Pipeline([s]), x) == Apply(s, x)
  {
    var steps := New([Callable(s)], None).value.steps;
    assert steps == [s];
    assert Pipeline(steps) == Pipeline([s]);
    assert Fold(steps, x) == Fold(steps[1..], Apply(s, x));
    assert steps[1..] == [];
  }

  /**
   * A constructed pipeline runs its positional arguments in order and the block
   * last: `Pipeline.new(f) { |x| g(x) }.call(x) == g(f.call(x))`.
   */
  lemma {:induction false} BlockRunsLast<T>(lambdas: seq<Candidate<Step<T>>>, g: T -> T, x: T)
    requires AllCallable(lambdas)
    ensures New(lambdas, Some(g)).Success?
    ensures Call(New(lambdas, Some(g)).value, x) == g(Fold(Values(lambdas), x))
  {
    FoldAppend(Values(lambdas), [Leaf(g)], x);
  }

  /** One non-callable argument anywhere means no pipeline at all, block or not. */
  lemma AllOrNothing<T>(a: seq<Candidate<Step<T>>>, n: string, b: seq<Candidate<Step<T>>>, block: Option<T -> T>)
    ensures New(a + [NotCallable(n)] + b, block)
      == Failure(CallableExpectedError(Complaint(Offenders(a) + [n] + Offenders(b), Requirement)))
  {
    NotCallableNamed(a, n, b);
  }

  /** Composition is sequencing: `(p | q).call(x) == q.call(p.call(x))`. */
  lemma ComposeSequences<T>(p: Pipeline<T>, next: Step<T>, x: T)
    ensures Call(Then(p, next), x) == Apply(next, Call(p, x))
  {
    var steps := Then(p, next).steps;
    assert Fold(steps, x) == Fold(steps[1..], Call(p, x));
    assert steps[1..] == [next];
    assert Fold([next], Call(p, x)) == Fold([next][1..], Apply(next, Call(p, x)));
    assert [next][1..] == [];
  }

  /** `(a | b) | c` and `a | (b | c)` give the same result on every input. */
  lemma ComposeAssociative<T>(a: Pipeline<T>, b: Pipeline<T>, c: Step<T>, x: T)
    ensures Call(Then(Then(a, Nested(b)), c), x) == Call(Then(a, Nested(Then(b, c))), x)
    ensures Call(Then(Then(a, Nested(b)), c), x) == Apply(c, Call(b, Call(a, x)))
  {
    ComposeSequences(Then(a, Nested(b)), c, x);
    ComposeSequences(a, Nested(b), x);
    ComposeSequences(a, Nested(Then(b, c)), x);
    ComposeSequences(b, c, Call(a, x));
  }
}
