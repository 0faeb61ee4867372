/** The declarations of the host program example.cpp (`-h/--help` a flag, `-i/--input` a
    String_View, `-o/--output` a Bool) and what a parse does with a few command lines. */
module Examples {
  import opened Wrappers
  import opened Registry
  import opened Dispatch
  import opened Coercion
  import opened Properties

  const Help: OptionSpec := OptionSpec(false, Bool, "Display this help message", "help", Some('h'))
  const Input: OptionSpec := OptionSpec(true, StringView, "Input file name", "input", Some('i'))
  const Output: OptionSpec := OptionSpec(true, Bool, "Give output", "output", Some('o'))

  ghost function Declared(): Registry {
    map["help" := Help, "input" := Input, "output" := Output]
  }

  /** The three declarations succeed, in order, and leave a well-formed registry. */
  lemma ExampleRegistration()
    ensures Register(map[], Help) == Success(map["help" := Help])
    ensures Register(map["help" := Help], Input) == Success(map["help" := Help, "input" := Input])
    ensures Register(map["help" := Help, "input" := Input], Output) == Success(Declared())
    ensures WellFormed(Declared())
  {
    var two := map["help" := Help, "input" := Input];
    assert !ShortTaken(map["help" := Help], 'i');
    assert !ShortTaken(two, 'o');
  }

  lemma StoreInput(toDouble: string -> Option<real>)
    ensures LongStep(Declared(), map[], "input", "foo.txt", toDouble) == Success(map["input" := TextValue("foo.txt")])
  {
  }

  lemma StoreOutput(toDouble: string -> Option<real>)
    ensures LongStep(Declared(), map["input" := TextValue("foo.txt")], "output", "true", toDouble) ==
              Success(map["input" := TextValue("foo.txt"), "output" := BoolValue(true)])
  {
    assert ToBool("true") == Some(true);
  }

  /** `--input=foo.txt --output true`: input holds the text, output the bool, help is absent. */
  lemma LongFormsParse(toDouble: string -> Option<real>)
    ensures Parse(State(Declared(), map[]), ["prog", "--input=foo.txt", "--output", "true"], toDouble) ==
              Success(State(Declared(), map["input" := TextValue("foo.txt"), "output" := BoolValue(true)]))
  {
    var start := State(Declared(), map[]);
    var afterInput := map["input" := TextValue("foo.txt")];
    var afterOutput := map["input" := TextValue("foo.txt"), "output" := BoolValue(true)];
    var argv := ["prog", "--input=foo.txt", "--output", "true"];
    var rest := ["--" + "output", "true"];
    assert "--input=foo.txt" == "--" + "input" + "=" + "foo.txt";
    assert "--output" == "--" + "output";
    assert argv[1..] == ["--" + "input" + "=" + "foo.txt"] + rest;
    StoreInput(toDouble);
    StoreOutput(toDouble);
    calc {
      Parse(start, argv, toDouble);
      Run(start, ["--" + "input" + "=" + "foo.txt"] + rest, toDouble);
      { EqualsFormMatchesNextToken(start, "input", "foo.txt", rest, toDouble); }
      Run(start, ["--" + "input", "foo.txt"] + rest, toDouble);
      { LongOptionTakesNextToken(start, "input", "foo.txt", rest, toDouble); }
      Run(State(Declared(), afterInput), rest, toDouble);
      { assert rest == ["--" + "output", "true"] + []; }
      Run(State(Declared(), afterInput), ["--" + "output", "true"] + [], toDouble);
      { LongOptionTakesNextToken(State(Declared(), afterInput), "output", "true", [], toDouble); }
      Run(State(Declared(), afterOutput), [], toDouble);
    }
  }

  lemma DeclaredIsConsistent(parsed: Store)
    requires parsed.Keys <= Declared().Keys
    ensures Consistent(State(Declared(), parsed))
  {
    ExampleRegistration();
  }

  /** `--input=foo.txt -o true`: `-o` is not followed by its value (no long option is named
      "o"), so the Bool option reached by its short identifier reports a missing argument. */
  lemma ShortOutputWithSeparateValueFails(toDouble: string -> Option<real>)
    ensures Parse(State(Declared(), map[]), ["prog", "--input=foo.txt", "-o", "true"], toDouble) ==
              Failure(MissingShortArgument('o'))
  {
    var start := State(Declared(), map[]);
    var afterInput := State(Declared(), map["input" := TextValue("foo.txt")]);
    var argv := ["prog", "--input=foo.txt", "-o", "true"];
    var rest: seq<string> := [];
    assert "--input=foo.txt" == "--" + "input" + "=" + "foo.txt";
    assert "-o" == "-" + ['o'];
    assert argv[1..] == ["--" + "input" + "=" + "foo.txt"] + (["-" + ['o'], "true"] + rest);
    StoreInput(toDouble);
    DeclaredIsConsistent(afterInput.parsed);
    assert OwnsShort(Declared(), "output", 'o');
    calc {
      Parse(start, argv, toDouble);
      Run(start, ["--" + "input" + "=" + "foo.txt"] + (["-" + ['o'], "true"] + rest), toDouble);
      { EqualsFormMatchesNextToken(start, "input", "foo.txt", ["-" + ['o'], "true"] + rest, toDouble); }
      Run(start, ["--" + "input", "foo.txt"] + (["-" + ['o'], "true"] + rest), toDouble);
      { LongOptionTakesNextToken(start, "input", "foo.txt", ["-" + ['o'], "true"] + rest, toDouble); }
      Run(afterInput, ["-" + ['o'], "true"] + rest, toDouble);
      { ShortValueNotConsumed(afterInput, 'o', "output", "true", rest, toDouble); }
      Failure(MissingShortArgument('o'));
    }
  }

  /** `--input` as the last token: nothing follows to take as its argument. */
  lemma InputWithoutValueFails(toDouble: string -> Option<real>)
    ensures Parse(State(Declared(), map[]), ["prog", "--input"], toDouble) == Failure(MissingArgument("input"))
  {
    var argv := ["prog", "--input"];
    assert argv[1..][0][2..] == "input";
  }

  /** `--bogus`: an option nobody declared stops the parse. */
  lemma UnknownOptionFails(toDouble: string -> Option<real>)
    ensures Parse(State(Declared(), map[]), ["prog", "--bogus"], toDouble) == Failure(UnknownOption("bogus"))
  {
    var argv := ["prog", "--bogus"];
    assert "--bogus" == "--" + "bogus";
    assert argv[1..] == ["--" + "bogus"];
    UnknownLongAsLastTokenFails(State(Declared(), map[]), "bogus", toDouble);
  }

  /** A bare word where an option is expected stops the parse. */
  lemma BareWordFails(toDouble: string -> Option<real>)
    ensures Parse(State(Declared(), map[]), ["prog", "foo.txt"], toDouble) ==
              Failure(UnrecognizedOptionFormat("foo.txt"))
  {
    var argv := ["prog", "foo.txt"];
    assert argv[1..] == ["foo.txt"];
    assert "foo.txt"[..1] != "-" && "foo.txt"[..2] != "--";
  }

  /** `-h -z`: `-h` stores the text " " under "help" (not the bool true), its lookahead leaves a
      default entry named "h" in the registry, and the unknown `-z` is ignored. */
  lemma HelpThenUnknownShort(toDouble: string -> Option<real>)
    ensures Parse(State(Declared(), map[]), ["prog", "-h", "-z"], toDouble) ==
              Success(State(Declared()["h" := DefaultOption], map["help" := TextValue(" ")]))
  {
    var start := State(Declared(), map[]);
    var looked := Declared()["h" := DefaultOption];
    var argv := ["prog", "-h", "-z"];
    DeclaredIsConsistent(map[]);
    SubscriptKeepsConsistent(start, "h");
    assert Subscript(Declared(), "h") == looked;
    assert OwnsShort(looked, "help", 'h');
    var tokens := argv[1..];
    ShortTokenShape(tokens[0]);
    assert tokens[0][1..] == "h";
    assert Step(start, tokens, toDouble) == Success(Progress(State(looked, map["help" := TextValue(" ")]), 1));
    var last := tokens[1..];
    ShortTokenShape(last[0]);
    assert last[0][1..] == "z";
    assert !ShortTaken(looked, 'z');
  }

  /** `-z` alone, with no option owning `z`: the parse succeeds and changes nothing. */
  lemma UnknownShortIgnored(toDouble: string -> Option<real>)
    ensures Parse(State(Declared(), map[]), ["prog", "-z"], toDouble) == Success(State(Declared(), map[]))
  {
    var tokens := ["prog", "-z"][1..];
    ShortTokenShape(tokens[0]);
    assert tokens[0][1..] == "z";
    assert !OwnsShort(Declared(), "help", 'z') && !OwnsShort(Declared(), "input", 'z');
    assert !ShortTaken(Declared(), 'z');
  }
}
