/**
 * `Welder::Pipe`: the earlier version of `Welder::Pipeline`, with the same
 * construction, fold and composition, its own error class, and a check that
 * takes the argument array rather than a splat. Its meaning is tied to
 * `Pipelines` by a translation that keeps the shape of the step tree, so every
 * law proved there carries over.
 */
module Pipes {
  import opened Wrappers
  import opened Candidates
  import Pipelines

  datatype Step<!T> = Leaf(f: T -> T) | Nested(pipe: Pipe<T>)

  /** `@pipes`: the steps, in the order they run. */
  datatype Pipe<!T> = Pipe(steps: seq<Step<T>>)

  /** `Welder::Pipe::CallableExpectedError`, with its message. */
  datatype CallableExpectedError = CallableExpectedError(message: string)

  /** What the message of this copy of the check asks of every value. */
  const Requirement := "'call(input)'"

  /** The private `callable!(lambdas)` of the class. */
  function AssertCallable<T>(lambdas: seq<Candidate<Step<T>>>): (r: Outcome<CallableExpectedError>)
    ensures lambdas == [] ==> r.Pass?
    ensures r.Pass? <==> AllCallable(lambdas)
    ensures r.Fail? ==> r.error.message == Complaint(Offenders(lambdas), Requirement)
  {
    var nonCallable := Offenders(lambdas);
    if nonCallable == [] then Pass
    else Fail(CallableExpectedError(Complaint(nonCallable, Requirement)))
  }

  /** The optional block, as the list of steps it adds after the positional ones. */
  function BlockSteps<T>(block: Option<T -> T>): (s: seq<Step<T>>) {
    match block
    case None => []
    case Some(g) => [Leaf(g)]
  }

  /**
   * `Pipe.new(*lambdas, &block)`: either no pipe at all, or one whose steps are
   * the positional arguments in order followed by the block.
   */
  function New<T>(lambdas: seq<Candidate<Step<T>>>, block: Option<T -> T>): (r: Result<Pipe<T>, CallableExpectedError>)
    ensures r.Success? <==> AllCallable(lambdas)
    ensures r.Success? ==> |r.value.steps| == |lambdas| + (if block.Some? then 1 else 0)
    ensures r.Success? ==> forall i :: 0 <= i < |lambdas| ==> r.value.steps[i] == lambdas[i].callable
    ensures r.Success? && block.Some? ==> r.value.steps[|lambdas|] == Leaf(block.value)
    ensures r.Failure? ==> r.error == CallableExpectedError(Complaint(Offenders(lambdas), Requirement))
  {
    match AssertCallable(lambdas)
    case Fail(e) => Failure(e)
    case Pass => Success(Pipe(Values(lambdas) + BlockSteps(block)))
  }

  /** One step of the fold: `e.call(a)`. */
  function Apply<T>(step: Step<T>, input: T): (output: T)
    decreases step
  {
    match step
    case Leaf(f) => f(input)
    case Nested(p) => Fold(p.steps, input)
  }

  /** `steps.reduce(input) { |a, e| e.call(a) }`. */
  function Fold<T>(steps: seq<Step<T>>, input: T): (output: T)
    decreases steps
  {
    if steps == [] then input else Fold(steps[1..], Apply(steps[0], input))
  }

  /** `Pipe#call(input)`. */
  function Call<T>(p: Pipe<T>, input: T): (output: T) {
    Fold(p.steps, input)
  }

  /**
   * `Pipe#|(other)`: `self.class.new(self, other)`, a fresh pipe of the two
   * steps this pipe and `other`, or the error naming a non-callable `other`.
   */
  function Compose<T>(p: Pipe<T>, other: Candidate<Step<T>>): (r: Result<Pipe<T>, CallableExpectedError>)
    ensures other.Callable? ==> r == Success(Pipe([Nested(p), other.callable]))
    ensures other.NotCallable? ==> r == Failure(CallableExpectedError("Expected " + other.name + " to respond to " + Requirement))
  {
    var args := [Callable(Nested(p)), other];
    var r := New(args, None);
    if other.Callable? then
      assert r.value.steps == [Nested(p), other.callable];
      r
    else
      assert Offenders(args) == [other.name] by {
        assert args[1..] == [other];
        assert [other][1..] == [];
      }
      ComplaintSingle(other.name, Requirement);
      r
  }

  /** `p | next` for a `next` that is known to be callable. */
  function Then<T>(p: Pipe<T>, next: Step<T>): (r: Pipe<T>)
    ensures Compose(p, Callable(next)) == Success(r)
  {
    Pipe([Nested(p), next])
  }

  /** The same step tree, read as `Welder::Pipeline` steps. */
  function TranslateStep<T>(s: Step<T>): (t: Pipelines.Step<T>)
    decreases s
  {
    match s
    case Leaf(f) => Pipelines.Leaf(f)
    case Nested(p) => Pipelines.Nested(Pipelines.Pipeline(Translate(p.steps)))
  }

  function Translate<T>(steps: seq<Step<T>>): (ts: seq<Pipelines.Step<T>>)
    decreases steps
    ensures |ts| == |steps|
  {
    if steps == [] then [] else [TranslateStep(steps[0])] + Translate(steps[1..])
  }

  function AsPipeline<T>(p: Pipe<T>): (q: Pipelines.Pipeline<T>) {
    Pipelines.Pipeline(Translate(p.steps))
  }

  lemma {:induction false} TranslateAppend<T>(a: seq<Step<T>>, b: seq<Step<T>>)
    ensures Translate(a + b) == Translate(a) + Translate(b)
  {
    if a == [] {
      assert a + b == b;
    } else {
      assert (a + b)[0] == a[0];
      assert (a + b)[1..] == a[1..] + b;
      TranslateAppend(a[1..], b);
    }
  }

  /** A step of a pipe does what the same step of a pipeline does. */
  lemma {:induction false} ApplyAgrees<T>(s: Step<T>, x: T)
    ensures Apply(s, x) == Pipelines.Apply(TranslateStep(s), x)
    decreases s
  {
    match s
    case Leaf(f) =>
    case Nested(p) => FoldAgrees(p.steps, x);
  }

  /** Folding a pipe's steps gives what folding the translated pipeline steps gives. */
  lemma {:induction false} FoldAgrees<T>(steps: seq<Step<T>>, x: T)
    ensures Fold(steps, x) == Pipelines.Fold(Translate(steps), x)
    decreases steps
  {
    if steps != [] {
      var ts := Translate(steps);
      assert ts[0] == TranslateStep(steps[0]) && ts[1..] == Translate(steps[1..]);
      ApplyAgrees(steps[0], x);
      FoldAgrees(steps[1..], Apply(steps[0], x));
    }
  }

  /** `Pipe` and `Pipeline` compute the same thing on every input. */
  lemma CallAgrees<T>(p: Pipe<T>, x: T)
    ensures Call(p, x) == Pipelines.Call(AsPipeline(p), x)
  {
    FoldAgrees(p.steps, x);
  }

  /** Composing pipes is composing the corresponding pipelines. */
  lemma ThenAgrees<T>(p: Pipe<T>, next: Step<T>)
    ensures AsPipeline(Then(p, next)) == Pipelines.Then(AsPipeline(p), TranslateStep(next))
  {
    var steps := [Nested(p), next];
    assert steps[1..] == [next];
    assert [next][1..] == [];
    assert Translate([next]) == [TranslateStep(next)];
    assert Translate(steps) == [TranslateStep(Nested(p))] + [TranslateStep(next)];
  }

  /** `Pipe.new` with no argument and no block is the identity. */
  lemma EmptyIsIdentity<T>(x: T)
    ensures New<T>([], None) == Success(Pipe([]))
    ensures Call(New<T>([], None).value, x) == x
  {
  }

  /** `Pipe.new(f).call(x) == f.call(x)`. */
  lemma SingleStep<T>(s: Step<T>, x: T)
    ensures New([Callable(s)], None) == Success(Pipe([s]))
    ensures Call(Pipe([s]), x) == Apply(s, x)
  {
    var steps := New([Callable(s)], None).value.steps;
    assert steps == [s];
    assert Pipe(steps) == Pipe([s]);
    assert Fold(steps, x) == Fold(steps[1..], Apply(s, x));
    assert steps[1..] == [];
  }

  /** Running two lists of steps one after the other is running their concatenation. */
  lemma FoldAppend<T>(a: seq<Step<T>>, b: seq<Step<T>>, x: T)
    ensures Fold(a + b, x) == Fold(b, Fold(a, x))
  {
    FoldAgrees(a + b, x);
    TranslateAppend(a, b);
    Pipelines.FoldAppend(Translate(a), Translate(b), x);
    FoldAgrees(a, x);
    FoldAgrees(b, Fold(a, x));
  }

  /** The positional arguments run in order, and the block runs last. */
  lemma BlockRunsLast<T>(lambdas: seq<Candidate<Step<T>>>, g: T -> T, x: T)
    requires AllCallable(lambdas)
    ensures New(lambdas, Some(g)).Success?
    ensures Call(New(lambdas, Some(g)).value, x) == g(Fold(Values(lambdas), x))
  {
    FoldAppend(Values(lambdas), [Leaf(g)], x);
  }

  /** One non-callable argument anywhere means no pipe at all, block or not. */
  lemma AllOrNothing<T>(a: seq<Candidate<Step<T>>>, n: string, b: seq<Candidate<Step<T>>>, block: Option<T -> T>)
    ensures New(a + [NotCallable(n)] + b, block)
      == Failure(CallableExpectedError(Complaint(Offenders(a) + [n] + Offenders(b), Requirement)))
  {
    NotCallableNamed(a, n, b);
  }

  /** `(p | q).call(x) == q.call(p.call(x))`. */
  lemma ComposeSequences<T>(p: Pipe<T>, next: Step<T>, x: T)
    ensures Call(Then(p, next), x) == Apply(next, Call(p, x))
  {
    CallAgrees(Then(p, next), x);
    ThenAgrees(p, next);
    Pipelines.ComposeSequences(AsPipeline(p), TranslateStep(next), x);
    CallAgrees(p, x);
    ApplyAgrees(next, Call(p, x));
  }

  /** `(a | b) | c` and `a | (b | c)` give the same result on every input. */
  lemma ComposeAssociative<T>(a: Pipe<T>, b: Pipe<T>, c: Step<T>, x: T)
    ensures Call(Then(Then(a, Nested(b)), c), x) == Call(Then(a, Nested(Then(b, c))), x)
    ensures Call(Then(Then(a, Nested(b)), c), x) == Apply(c, Call(b, Call(a, x)))
  {
    ComposeSequences(Then(a, Nested(b)), c, x);
    ComposeSequences(a, Nested(b), x);
    ComposeSequences(a, Nested(Then(b, c)), x);
    ComposeSequences(b, c, Call(a, x));
  }
}
