/** The documented behaviours of `Welder::Pipeline`, on concrete steps over strings and integers. */
module PipelineExamples {
  import opened Wrappers
  import opened Candidates
  import opened Pipelines

  function Parenthesize(s: string): (r: string) { "(" + s + ")" }
  function Quote(s: string): (r: string) { "\"" + s + "\"" }
  function Shout(s: string): (r: string) { s + "!!" }
  function Double(n: int): (r: int) { n * 2 }

  /** `Pipeline.new { |input| input * 2 }.call(2) == 4`, the block being the only step. */
  lemma BlockOnly()
    ensures New<int>([], Some(Double)).Success?
    ensures Call(New<int>([], Some(Double)).value, 2) == 4
  {
    BlockRunsLast<int>([], Double, 2);
  }

  /** `Pipeline.new(->(input) { ... })`: one lambda, no block. */
  function Lambda(f: string -> string): (p: Pipeline<string>)
    ensures New([Callable(Leaf(f))], None) == Success(p)
  {
    SingleStep(Leaf(f), "");
    Pipeline([Leaf(f)])
  }

  /** `parenthesize | quote | shout` turns "hello world" into "\"(hello world)\"!!". */
  lemma ChainOfThree()
    ensures Call(Then(Then(Lambda(Parenthesize), Nested(Lambda(Quote))), Nested(Lambda(Shout))), "hello world")
      == "\"(hello world)\"!!"
  {
    var parenthesize, quote, shout := Pipeline([Leaf(Parenthesize)]), Pipeline([Leaf(Quote)]), Pipeline([Leaf(Shout)]);
    var x0 := "hello world";
    var x1 := Call(parenthesize, x0);
    assert x1 == "(hello world)" by { SingleStep(Leaf(Parenthesize), x0); }
    var x2 := Call(quote, x1);
    assert x2 == "\"(hello world)\"" by { SingleStep(Leaf(Quote), x1); }
    var x3 := Call(shout, x2);
    assert x3 == "\"(hello world)\"!!" by { SingleStep(Leaf(Shout), x2); }
    var first := Then(parenthesize, Nested(quote));
    assert Call(first, x0) == x2 by { ComposeSequences(parenthesize, Nested(quote), x0); }
    assert Call(Then(first, Nested(shout)), x0) == x3 by {
      ComposeSequences(first, Nested(shout), x0);
      assert Apply(Nested(shout), x2) == Call(shout, x2);
    }
  }

  /** The text of the message for `:invalid, :parameters`, spelled out. */
  lemma TwoNamesText()
    ensures "Expected " + ("invalid, parameters" + (" to respond to " + "'call(input)'"))
      == "Expected invalid, parameters " + "to respond to 'call(input)'"
  {
  }

  /** The text of the message for `'invalid'` alone, spelled out. */
  lemma OneNameText()
    ensures "Expected " + ("invalid" + (" to respond to " + "'call(input)'"))
      == "Expected invalid " + "to respond to 'call(input)'"
  {
  }

  /** `Pipeline.new(:invalid, :parameters)` raises, naming both values. */
  lemma TwoInvalidParameters<T>()
    ensures New<T>([NotCallable("invalid"), NotCallable("parameters")], None)
      == Failure(CallableExpectedError("Expected invalid, parameters " + "to respond to 'call(input)'"))
  {
    var args: seq<Candidate<Step<T>>> := [NotCallable("invalid"), NotCallable("parameters")];
    var names := ["invalid", "parameters"];
    assert Offenders(args) == names by {
      assert args[1..] == [NotCallable("parameters")];
      assert args[1..][1..] == [];
    }
    assert Join(names, Separator) == "invalid, parameters" by {
      assert names[1..] == ["parameters"];
    }
    TwoNamesText();
  }

  /** `Pipeline.new(->(_) { 'valid' }, 'invalid')` raises too, naming only the string. */
  lemma ValidThenInvalid()
    ensures New<string>([Callable(Leaf(_ => "valid")), NotCallable("invalid")], None)
      == Failure(CallableExpectedError("Expected invalid " + "to respond to 'call(input)'"))
  {
    var args: seq<Candidate<Step<string>>> := [Callable(Leaf(_ => "valid")), NotCallable("invalid")];
    assert Offenders(args) == ["invalid"] by {
      assert args[1..] == [NotCallable("invalid")];
    }
    OneNameText();
  }
}
