/** The documented behaviours of `Welder::Pipe`, on concrete steps over strings and integers. */
module PipeExamples {
  import opened Wrappers
  import opened Candidates
  import opened Pipes
  import PipelineExamples

  /** `Pipe.new { |input| input * 2 }.call(2) == 4`. */
  lemma BlockOnly()
    ensures New<int>([], Some(PipelineExamples.Double)).Success?
    ensures Call(New<int>([], Some(PipelineExamples.Double)).value, 2) == 4
  {
    BlockRunsLast<int>([], PipelineExamples.Double, 2);
  }

  /** `parenthesize | quote | shout` over pipes turns "hello world" into "\"(hello world)\"!!". */
  lemma ChainOfThree()
    ensures var parenthesize, quote, shout :=
        Pipe([Leaf(PipelineExamples.Parenthesize)]), Pipe([Leaf(PipelineExamples.Quote)]), Pipe([Leaf(PipelineExamples.Shout)]);
      Call(Then(Then(parenthesize, Nested(quote)), Nested(shout)), "hello world") == "\"(hello world)\"!!"
  {
    var parenthesize, quote, shout :=
      Pipe([Leaf(PipelineExamples.Parenthesize)]), Pipe([Leaf(PipelineExamples.Quote)]), Pipe([Leaf(PipelineExamples.Shout)]);
    var x0 := "hello world";
    var x1 := Call(parenthesize, x0);
    assert x1 == "(hello world)" by { SingleStep(Leaf(PipelineExamples.Parenthesize), x0); }
    var x2 := Call(quote, x1);
    assert x2 == "\"(hello world)\"" by { SingleStep(Leaf(PipelineExamples.Quote), x1); }
    var x3 := Call(shout, x2);
    assert x3 == "\"(hello world)\"!!" by { SingleStep(Leaf(PipelineExamples.Shout), x2); }
    var first := Then(parenthesize, Nested(quote));
    assert Call(first, x0) == x2 by { ComposeSequences(parenthesize, Nested(quote), x0); }
    assert Call(Then(first, Nested(shout)), x0) == x3 by {
      ComposeSequences(first, Nested(shout), x0);
      assert Apply(Nested(shout), x2) == Call(shout, x2);
    }
  }

  /** `Pipe.new(->(_) { 'valid' }, 'invalid')` raises, naming only the string. */
  lemma ValidThenInvalid()
    ensures New<string>([Callable(Leaf(_ => "valid")), NotCallable("invalid")], None)
      == Failure(CallableExpectedError("Expected invalid " + "to respond to 'call(input)'"))
  {
    var args: seq<Candidate<Step<string>>> := [Callable(Leaf(_ => "valid")), NotCallable("invalid")];
    assert Offenders(args) == ["invalid"] by {
      assert args[1..] == [NotCallable("invalid")];
    }
    PipelineExamples.OneNameText();
  }
}
