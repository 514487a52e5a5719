# Welder pipelines in Dafny

Welder is a small Ruby library for building immutable chains of single-argument
steps. A pipeline holds an ordered list of steps. Calling it folds the input
through the steps from left to right, and a step may itself be a pipeline. The
`|` operator never changes either operand: it builds a fresh pipeline whose two
steps are the left operand and the right one. Construction checks every
positional argument up front: if any of them does not respond to `call`, it
raises `CallableExpectedError` and builds nothing. The message names every
offending value, in argument order.

The library has this idea twice. `Welder::Pipeline` is the current class and
`Welder::Pipe` an earlier, near-identical one. `Welder::Support::CallableHandler`
is a stand-alone copy of the check. The model has one module for each, plus a
module for what the three copies of the check share:

- `Wrappers` (`wrappers.dfy`): `Option`, `Result` (a value, or the exception
  raised instead) and `Outcome` (a check that passes or raises).
- `Candidates` (`candidates.dfy`): a constructor argument is a `Candidate`.
  It is either `Callable(c)` or `NotCallable(name)`, where `name` is its `to_s`.
  The module holds the `reject` of callables, Ruby's `join(', ')`, and the
  sentence the error messages are made from.
- `CallableHandler` (`callable_handler.dfy`): `CallableHandler#callable!` and its
  all-or-nothing laws.
- `Pipelines` (`pipeline.dfy`): the `Step` and `Pipeline` datatypes, construction,
  the fold behind `call`, and `|`, with the composition laws.
- `Pipes` (`pipe.dfy`): the same for `Welder::Pipe`. A translation maps a pipe's
  step tree onto a pipeline's, and the model proves that `call` agrees across it.
  The composition laws of pipes then follow from those of pipelines.
- `PipelineExamples`, `PipeExamples`: the behaviours the library's own tests
  check, on concrete string and integer steps.

The source has three copies of the callable check, and they differ in four ways:

- Visibility: `Pipeline#callable!` and `Pipe#callable!` are private
  (lib/welder/pipeline.rb:60, lib/welder/pipe.rb:57). The mixin's
  `CallableHandler#callable!` is public.
- Arguments: `Pipe#callable!(lambdas)` takes the array itself
  (lib/welder/pipe.rb:59). `Pipeline#callable!(*lambdas)` and
  `CallableHandler#callable!(*lambdas)` take a splat (lib/welder/pipeline.rb:68,
  lib/welder/support/callable_handler.rb:15).
- Exception class: each copy raises its own `CallableExpectedError`.
- Message: the message asks for `'call(input)'` in the two classes and for
  `'call'` in the mixin.

The model keeps them as three `AssertCallable` functions over the shared
`Candidates` pieces. All three take a sequence of candidates, since a splat
and an array reach the body as the same list. Visibility is not modelled.

The data threaded through a pipeline is a type parameter `T`. A step that is not
a pipeline is a total function `T -> T`.

## Model

| member | source | states |
|---|---|---|
| `Candidates.Values` | lib/welder/pipeline.rb:30 | the stored values are the arguments, one for one and in argument order |
| `Candidates.Offenders` | lib/welder/support/callable_handler.rb:16 | the non-callable values, listed by name, number no more than the arguments; the list is empty exactly when every argument is callable |
| `Candidates.OffendersAppend` | lib/welder/support/callable_handler.rb:16 | filtering distributes over concatenation, so the offenders keep their argument order |
| `Candidates.OffendersAt` | lib/welder/support/callable_handler.rb:16-20 | a non-callable argument's name sits after the names of earlier offenders and before those of later ones |
| `Candidates.OffenderIndex` | lib/welder/support/callable_handler.rb:16-20 | a non-callable argument's name is the offender whose index is the number of offenders before it |
| `Candidates.OffendersNamed` | lib/welder/support/callable_handler.rb:16-20 | every listed name is that of some non-callable argument |
| `Candidates.OffendersExact` | lib/welder/support/callable_handler.rb:16-20 | a name is listed if and only if some argument is that non-callable value |
| `Candidates.CallableIgnored` | lib/welder/support/callable_handler.rb:16-18 | inserting a callable anywhere leaves the list of offenders unchanged |
| `Candidates.NotCallableNamed` | lib/welder/support/callable_handler.rb:16-18 | inserting a non-callable anywhere adds its name at its position among the other offenders |
| `Candidates.Join` | lib/welder/support/callable_handler.rb:20 | Ruby's `join` of strings: the parts with the separator between each two neighbours; `JoinLength`, `JoinPart`, `JoinSeparator` and `JoinSnoc` give its laws |
| `Candidates.JoinLength` | lib/welder/support/callable_handler.rb:20 | the joined string is as long as all the parts together plus one separator between each two neighbours |
| `Candidates.JoinPart` | lib/welder/support/callable_handler.rb:20 | every part appears in the joined string at its offset, in order |
| `Candidates.JoinSeparator` | lib/welder/support/callable_handler.rb:20 | each part after the first is immediately preceded by the separator |
| `Candidates.JoinSnoc` | lib/welder/support/callable_handler.rb:20 | joining one more part appends the separator and that part |
| `Candidates.Complaint` | lib/welder/support/callable_handler.rb:20-21 | the error message: "Expected ", the joined offenders, " to respond to " and the requirement; `ComplaintShape`, `ComplaintSingle` and `ComplaintNames` give its laws |
| `Candidates.ComplaintShape` | lib/welder/support/callable_handler.rb:20-21 | the message starts with "Expected " and ends with the stated requirement |
| `Candidates.ComplaintSingle` | lib/welder/support/callable_handler.rb:20-21 | with one offender the message is "Expected <name> to respond to <requirement>" |
| `Candidates.ComplaintNames` | lib/welder/support/callable_handler.rb:20-21 | the message contains each offender's name, at the position given by the names before it |
| `CallableHandler.AssertCallable` | lib/welder/support/callable_handler.rb:15-24 | passes if and only if every argument is callable, and always on an empty argument list; otherwise raises with a message listing the offenders and asking for `'call'` |
| `CallableHandler.CallableNeverRescues` | lib/welder/support/callable_handler.rb:16-18 | adding a callable anywhere never turns a failure into a pass and does not change the message |
| `CallableHandler.OneOffenderFails` | lib/welder/support/callable_handler.rb:16-23 | one non-callable anywhere makes the check raise, whatever surrounds it, and the message names it among the others |
| `CallableHandler.MessageNamesOffenders` | lib/welder/support/callable_handler.rb:16-22 | a non-callable argument makes the check raise; its name is the k-th listed offender, where k counts the offenders before it, and it stands in the message right after "Expected " and the first k names with their separators; every listed name is a non-callable argument |
| `CallableHandler.OffendersInOrder` | lib/welder/support/callable_handler.rb:16-22 | two non-callables among callables give exactly "Expected a, b to respond to 'call'", in argument order |
| `Pipelines.AssertCallable` | lib/welder/pipeline.rb:68-77 | passes if and only if every argument is callable; otherwise raises with a message listing the offenders and asking for `'call(input)'` |
| `Pipelines.New` | lib/welder/pipeline.rb:27-31 | succeeds if and only if every positional argument is callable; the steps are those arguments in order, then the block; otherwise the error names the offenders |
| `Pipelines.Apply` | lib/welder/pipeline.rb:41 | one step of the `reduce`, `e.call(a)`: a function step is applied, a nested pipeline runs its own steps; `SingleStep` and `ComposeSequences` give its laws |
| `Pipelines.Fold` | lib/welder/pipeline.rb:41 | the `reduce` of the steps from the input, left to right; `FoldAppend` and `EmptyIsIdentity` give its laws |
| `Pipelines.Call` | lib/welder/pipeline.rb:40-42 | the left fold of the steps from the input, entering nested pipelines; `FoldAppend`, `ComposeSequences`, `ComposeAssociative`, `EmptyIsIdentity` and `BlockRunsLast` give its laws |
| `Pipelines.FoldAppend` | lib/welder/pipeline.rb:40-42 | folding a concatenation of steps is folding the second part over the result of the first |
| `Pipelines.Compose` | lib/welder/pipeline.rb:56-58 | composing `p` with `other` gives a new pipeline with exactly the steps `[p, other]`, with `p` embedded unchanged; a non-callable `other` raises with "Expected <other> to respond to 'call(input)'" |
| `Pipelines.Then` | lib/welder/pipeline.rb:56-58 | composing with a step known to be callable always succeeds, with the two-step pipeline |
| `Pipelines.EmptyIsIdentity` | lib/welder/pipeline.rb:27-42 | a pipeline built with no argument and no block has no steps and returns its input unchanged |
| `Pipelines.SingleStep` | lib/welder/pipeline.rb:27-42 | a pipeline built from one step has that step alone and behaves as that step |
| `Pipelines.BlockRunsLast` | lib/welder/pipeline.rb:27-42 | a pipeline built from callables and a block runs the callables in order, then the block |
| `Pipelines.AllOrNothing` | lib/welder/pipeline.rb:27-28 | one non-callable argument anywhere means no pipeline, with or without a block, and the error names it among the other offenders |
| `Pipelines.ComposeSequences` | lib/welder/pipeline.rb:40-58 | calling `p` composed with `q` on `x` gives `q.call(p.call(x))` |
| `Pipelines.ComposeAssociative` | lib/welder/pipeline.rb:40-58 | composing `a` with `b` and then with `c` calls like composing `a` with (`b` composed with `c`), and both give `c.call(b.call(a.call(x)))` |
| `PipelineExamples.BlockOnly` | spec/welder/pipeline_spec.rb:10-13 | a pipeline built from the block `input * 2` maps 2 to 4 |
| `PipelineExamples.Lambda` | spec/welder/pipeline_spec.rb:67-69 | a one-lambda pipeline is what `Pipeline.new` builds from that lambda |
| `PipelineExamples.ChainOfThree` | spec/welder/pipeline_spec.rb:71-76 | composing `parenthesize`, `quote` and `shout` maps "hello world" to "\"(hello world)\"!!" |
| `PipelineExamples.TwoInvalidParameters` | spec/welder/pipeline_spec.rb:55-64 | two non-callables raise "Expected invalid, parameters to respond to 'call(input)'" |
| `PipelineExamples.ValidThenInvalid` | spec/welder/pipeline_spec.rb:55-64 | a lambda followed by a string still raises, naming only the string |
| `Pipes.AssertCallable` | lib/welder/pipe.rb:59-68 | passes if and only if every value of the array is callable; otherwise raises, listing the offenders |
| `Pipes.New` | lib/welder/pipe.rb:26-31 | succeeds if and only if every positional argument is callable; the steps are those arguments in order, then the block; otherwise the error names the offenders |
| `Pipes.Compose` | lib/welder/pipe.rb:53-55 | composing `p` with `other` gives a new pipe with exactly the steps `[p, other]`, with `p` unchanged, or the error naming a non-callable `other` |
| `Pipes.Then` | lib/welder/pipe.rb:53-55 | composing with a step known to be callable always succeeds, with the two-step pipe |
| `Pipes.Apply` | lib/welder/pipe.rb:40 | one step of the `reduce`, `e.call(a)`: a function step is applied, a nested pipe runs its own steps; `ApplyAgrees` ties it to `Pipelines.Apply` |
| `Pipes.Fold` | lib/welder/pipe.rb:40 | the `reduce` of the steps from the input, left to right; `FoldAgrees` ties it to `Pipelines.Fold`, and `FoldAppend` gives its law |
| `Pipes.Call` | lib/welder/pipe.rb:39-41 | the left fold of the steps from the input, entering nested pipes; `CallAgrees` ties it to `Pipelines.Call`, and `ComposeSequences`, `ComposeAssociative`, `EmptyIsIdentity` and `BlockRunsLast` give its laws |
| `Pipes.ApplyAgrees` | lib/welder/pipe.rb:39-41 | a pipe step computes what the same step of a pipeline computes |
| `Pipes.FoldAgrees` | lib/welder/pipe.rb:39-41 | folding a pipe's steps computes what folding the same pipeline steps computes |
| `Pipes.CallAgrees` | lib/welder/pipe.rb:39-41 | `Pipe#call` and `Pipeline#call` agree on every pipe and input |
| `Pipes.ThenAgrees` | lib/welder/pipe.rb:53-55 | composing pipes gives the pipe that corresponds to the composed pipelines |
| `Pipes.EmptyIsIdentity` | lib/welder/pipe.rb:26-41 | an empty pipe has no steps and returns its input unchanged |
| `Pipes.SingleStep` | lib/welder/pipe.rb:26-41 | a pipe built from one step behaves as that step |
| `Pipes.FoldAppend` | lib/welder/pipe.rb:39-41 | folding a concatenation of steps is folding the second part over the result of the first |
| `Pipes.BlockRunsLast` | lib/welder/pipe.rb:26-41 | the positional arguments run in order and the block runs last |
| `Pipes.AllOrNothing` | lib/welder/pipe.rb:26-27 | one non-callable argument anywhere means no pipe, and the error names it among the other offenders |
| `Pipes.ComposeSequences` | lib/welder/pipe.rb:39-55 | calling `p` composed with `q` on `x` gives `q.call(p.call(x))` |
| `Pipes.ComposeAssociative` | lib/welder/pipe.rb:39-55 | composing `a` with `b` and then with `c` calls like composing `a` with (`b` composed with `c`), and both give `c.call(b.call(a.call(x)))` |
| `PipeExamples.BlockOnly` | spec/welder/pipe_spec.rb:10-13 | a pipe built from the block `input * 2` maps 2 to 4 |
| `PipeExamples.ChainOfThree` | spec/welder/pipe_spec.rb:71-76 | composing `parenthesize`, `quote` and `shout` maps "hello world" to "\"(hello world)\"!!" |
| `PipeExamples.ValidThenInvalid` | spec/welder/pipe_spec.rb:55-64 | a lambda followed by a string raises, naming only the string |

## Left out

- The `|` operator patches are not modelled. lib/welder/pipeline.rb:81-103 reopens `Object`, `Fixnum`, `TrueClass` and `FalseClass`, and lib/welder/pipe.rb:73-85 reopens only `Object`. In each, `value | pipeline` calls the pipeline on `value` when the right operand is a pipeline (or pipe) and the left one is not. Otherwise the method calls `super`. The patch replaces each class's own `|` rather than wrapping it, so that `super` never reaches Ruby's built-in bitwise or boolean operator. The explicit `Call` is the entry point here.
- `respond_to?(:call)` and `to_s` are not modelled as reflection. A constructor argument is a `Candidate` that says whether it is callable and, if not, what it renders as. The number of arguments `call` takes is not checked by the source, so it is not modelled either.
- Lambdas, `Method` objects, modules, class instances and blocks all become a `Leaf` total function. A `Pipe` used as a step of a `Pipeline`, or the reverse, is also a `Leaf`, namely its `call` function.
- Exceptions raised inside a step are not modelled. The source does not catch them, and steps here are total functions.
- The three `CallableExpectedError` classes are three separate datatypes, each carrying only its message. The exception class hierarchy is not modelled.
- Observation hooks ("valves") are not modelled. None of the modelled source files implements them: construction takes no valves, and `call` is a plain fold.
- The block is never passed through the callable check. In Ruby a block is always a `Proc`, so it is always callable, and `New` takes it as an optional function.
- The private visibility of `Pipeline#callable!` and `Pipe#callable!` is not modelled. Every function of a Dafny module can be called from outside it.
- lib/welder.rb is not part of this model. It only declares the module and loads the pipeline.
