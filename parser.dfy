/** `class Parser` (parser.h:13-312): the registry `m_options` and the store `m_parsed_options`
    as two map fields that the methods reassign. Every state-changing method is proved to compute
    exactly what the functions of Registry and Dispatch say, and to keep the class invariant. */
module OptionParser {
  import opened Wrappers
  import opened Coercion
  import opened Registry
  import opened Dispatch

  class Parser {
    const programName: string
    /** The host's `to_double` (parser.h:49-64): `std::stod`, answering only when it consumed
        the whole token. */
    const toDouble: string -> Option<real>
    var options: Registry
    var parsed: Store

    ghost predicate Valid()
      reads this
    {
      Consistent(State(options, parsed))
    }

    constructor (programName: string, toDouble: string -> Option<real>)
      ensures Valid()
      ensures this.programName == programName && this.toDouble == toDouble
      ensures options == map[] && parsed == map[]
    {
      this.programName := programName;
      this.toDouble := toDouble;
      options := map[];
      parsed := map[];
    }

    /** The duplicate scan of the two char overloads (parser.h:196-201, 215-220): visits the
        options in no particular order and stops at the first that owns `c`. */
    method HasShortOwner(c: char) returns (taken: bool)
      ensures taken <==> ShortTaken(options, c)
    {
      var unvisited := options.Keys;
      while unvisited != {}
        invariant unvisited <= options.Keys
        invariant forall key :: key in options && key !in unvisited ==> !OwnsShort(options, key, c)
        decreases unvisited
      {
        var key :| key in unvisited;
        if options[key].shortIdentifier == Some(c) {
          assert OwnsShort(options, key, c);
          return true;
        }
        unvisited := unvisited - {key};
      }
      return false;
    }

    /** What the four `add_option` overloads share: the duplicate checks, then the insertion. */
    method Declare(decl: OptionSpec) returns (r: Outcome<Error>)
      requires Valid()
      modifies this`options
      ensures Valid()
      ensures r == Register(old(options), decl).ToOutcome()
      ensures options == if r.Pass? then Register(old(options), decl).value else old(options)
    {
      if decl.longIdentifier in options {
        return Fail(DuplicateLongIdentifier(decl.longIdentifier));
      }
      if decl.shortIdentifier.Some? {
        var taken := HasShortOwner(decl.shortIdentifier.value);
        if taken {
          return Fail(DuplicateShortIdentifier(decl.shortIdentifier.value));
        }
      }
      RegisterKeepsWellFormed(options, decl);
      options := options[decl.longIdentifier := decl];
      r := Pass;
    }

    /** `add_option(long_identifier, description)` (parser.h:165-174): a flag. */
    method AddOption(longIdentifier: string, description: string) returns (r: Outcome<Error>)
      requires Valid()
      modifies this`options
      ensures Valid()
      ensures r.Fail? <==> longIdentifier in old(options)
      ensures r.Fail? ==> r.error == DuplicateLongIdentifier(longIdentifier) && options == old(options)
      ensures r.Pass? ==>
                options == old(options)[longIdentifier := OptionSpec(false, Bool, description, longIdentifier, None)]
    {
      r := Declare(OptionSpec(false, Bool, description, longIdentifier, None));
    }

    /** `add_option(long_identifier, description, argument_type)` (parser.h:176-186): an option
        that requires an argument of the given type. */
    method AddTypedOption(longIdentifier: string, description: string, argumentType: ArgumentType)
      returns (r: Outcome<Error>)
      requires Valid()
      modifies this`options
      ensures Valid()
      ensures r.Fail? <==> longIdentifier in old(options)
      ensures r.Fail? ==> r.error == DuplicateLongIdentifier(longIdentifier) && options == old(options)
      ensures r.Pass? ==>
                options == old(options)[longIdentifier := OptionSpec(true, argumentType, description, longIdentifier, None)]
    {
      r := Declare(OptionSpec(true, argumentType, description, longIdentifier, None));
    }

    /** `add_option(short_identifier, long_identifier, description)` (parser.h:188-204): a flag
        with a short identifier. */
    method AddShortOption(shortIdentifier: char, longIdentifier: string, description: string)
      returns (r: Outcome<Error>)
      requires Valid()
      modifies this`options
      ensures Valid()
      ensures r.Fail? <==> longIdentifier in old(options) || ShortTaken(old(options), shortIdentifier)
      ensures r.Fail? ==> options == old(options)
      ensures r.Fail? && longIdentifier in old(options) ==> r.error == DuplicateLongIdentifier(longIdentifier)
      ensures r.Fail? && longIdentifier !in old(options) ==> r.error == DuplicateShortIdentifier(shortIdentifier)
      ensures r.Pass? ==>
                options == old(options)[longIdentifier :=
                  OptionSpec(false, Bool, description, longIdentifier, Some(shortIdentifier))]
    {
      r := Declare(OptionSpec(false, Bool, description, longIdentifier, Some(shortIdentifier)));
    }

    /** `add_option(short_identifier, long_identifier, description, argument_type)`
        (parser.h:206-223): an option with a short identifier that requires an argument. */
    method AddShortTypedOption(shortIdentifier: char, longIdentifier: string, description: string,
                               argumentType: ArgumentType) returns (r: Outcome<Error>)
      requires Valid()
      modifies this`options
      ensures Valid()
      ensures r.Fail? <==> longIdentifier in old(options) || ShortTaken(old(options), shortIdentifier)
      ensures r.Fail? ==> options == old(options)
      ensures r.Fail? && longIdentifier in old(options) ==> r.error == DuplicateLongIdentifier(longIdentifier)
      ensures r.Fail? && longIdentifier !in old(options) ==> r.error == DuplicateShortIdentifier(shortIdentifier)
      ensures r.Pass? ==>
                options == old(options)[longIdentifier :=
                  OptionSpec(true, argumentType, description, longIdentifier, Some(shortIdentifier))]
    {
      r := Declare(OptionSpec(true, argumentType, description, longIdentifier, Some(shortIdentifier)));
    }

    /** `process_long_option` (parser.h:77-132). */
    method ProcessLongOption(name: string, argument: string) returns (r: Outcome<Error>)
      requires Valid()
      modifies this`parsed
      ensures Valid()
      ensures r == LongStep(options, old(parsed), name, argument, toDouble).ToOutcome()
      ensures r.Pass? ==> parsed == LongStep(options, old(parsed), name, argument, toDouble).value
    {
      if name !in options {
        return Fail(UnknownOption(name));
      }
      if options[name].requiresArgument {
        if argument == "" {
          return Fail(MissingArgument(name));
        }
        match options[name].argumentType {
          case Int =>
            var result := ToInt(argument);
            if result.Some? {
              parsed := parsed[name := IntValue(result.value)];
            } else {
              return Fail(WrongArgumentType(name, Int));
            }
          case Double =>
            var result := toDouble(argument);
            if result.Some? {
              parsed := parsed[name := DoubleValue(result.value)];
            } else {
              return Fail(WrongArgumentType(name, Double));
            }
          case Bool =>
            var result := ToBool(argument);
            if result.Some? {
              parsed := parsed[name := BoolValue(result.value)];
            } else {
              return Fail(WrongArgumentType(name, Bool));
            }
          case StringView =>
            parsed := parsed[name := TextValue(argument)];
        }
      } else {
        parsed := parsed[name := BoolValue(true)];
      }
      r := Pass;
    }

    /** `process_short_option` (parser.h:134-156): visits every option, in no particular order,
        and acts on those that own `shortName`. */
    method ProcessShortOption(shortName: char, argument: string) returns (r: Outcome<Error>)
      requires Valid()
      modifies this`parsed
      ensures Valid()
      ensures r == ShortStep(options, old(parsed), shortName, argument).ToOutcome()
      ensures r.Pass? ==> parsed == ShortStep(options, old(parsed), shortName, argument).value
    {
      ghost var outcome := ShortStep(options, parsed, shortName, argument);
      var unvisited := options.Keys;
      while unvisited != {}
        invariant unvisited <= options.Keys
        invariant Valid()
        invariant forall key :: OwnsShort(options, key, shortName) && key !in unvisited ==>
                    outcome.Success? && parsed == outcome.value
        invariant (forall key :: OwnsShort(options, key, shortName) ==> key in unvisited) ==>
                    parsed == old(parsed)
        decreases unvisited
      {
        var key :| key in unvisited;
        unvisited := unvisited - {key};
        if options[key].shortIdentifier == Some(shortName) {
          var longName := options[key].longIdentifier;
          if options[longName].requiresArgument {
            if argument == "" {
              return Fail(MissingShortArgument(shortName));
            }
            parsed := parsed[longName := TextValue(argument)];
          } else {
            parsed := parsed[longName := TextValue(" ")];
          }
        }
      }
      r := Pass;
    }

    /** Lines 244-252 of `parse`: splits the text after the dashes at its first '='; without
        one, and when a next token exists, looks `body` up with `m_options[body]` (inserting a
        value-initialised entry for an unknown name) and takes the next token as the argument
        when that entry requires one. `consumed` is 2 when the next token was taken. */
    method SplitToken(body: string, rest: seq<string>) returns (name: string, argument: string, consumed: nat)
      requires Valid()
      modifies this`options
      ensures Valid()
      ensures Resolve(old(options), body, rest) == Resolved(name, argument, options, consumed)
    {
      name, argument, consumed := body, "", 1;
      var equalSign := Find(body, '=');
      if equalSign.Some? {
        argument := body[equalSign.value + 1..];
        name := body[..equalSign.value];
      } else if 0 < |rest| {
        if name !in options {
          SubscriptKeepsConsistent(State(options, parsed), name);
          options := options[name := DefaultOption];
        }
        if options[name].requiresArgument {
          argument, consumed := rest[0], 2;
        }
      }
    }

    /** Lines 257-265 of `parse`: each character of a stacked cluster through
        `process_short_option`, with the same argument. */
    method ProcessCluster(cluster: string, argument: string) returns (r: Outcome<Error>)
      requires Valid()
      requires '=' !in cluster
      modifies this`parsed
      ensures Valid()
      ensures r == Cluster(options, old(parsed), cluster, argument).ToOutcome()
      ensures r.Pass? ==> parsed == Cluster(options, old(parsed), cluster, argument).value
    {
      var j := 0;
      while j < |cluster|
        invariant j <= |cluster|
        invariant Valid()
        invariant Cluster(options, parsed, cluster[j..], argument) == Cluster(options, old(parsed), cluster, argument)
        decreases |cluster| - j
      {
        // The stacking error of lines 259-263 cannot happen: the split removed every '='.
        assert cluster[j] != '=';
        r := ProcessShortOption(cluster[j], argument);
        if r.Fail? {
          return;
        }
        assert cluster[j..][1..] == cluster[j + 1..];
        j := j + 1;
      }
      r := Pass;
    }

    /** `parse(argc, argv)` (parser.h:225-269). */
    method Parse(argv: seq<string>) returns (r: Outcome<Error>)
      requires Valid()
      modifies this`options, this`parsed
      ensures Valid()
      ensures r == Dispatch.Parse(State(old(options), old(parsed)), argv, toDouble).ToOutcome()
      ensures r.Pass? ==> State(options, parsed) == Dispatch.Parse(State(old(options), old(parsed)), argv, toDouble).value
    {
      if |argv| < 2 {
        return Pass;
      }
      ghost var goal := Run(State(options, parsed), argv[1..], toDouble);
      var i := 1;
      while i < |argv|
        invariant 1 <= i <= |argv|
        invariant Valid()
        invariant Run(State(options, parsed), argv[i..], toDouble) == goal
        decreases |argv| - i
      {
        var token := argv[i];
        ghost var tokens := argv[i..];
        ghost var before := State(options, parsed);
        var body: string;
        var isShort := false;
        if StartsWith(token, "--") {
          body := token[2..];
        } else if StartsWith(token, "-") {
          body := token[1..];
          isShort := true;
        } else {
          return Fail(UnrecognizedOptionFormat(token));
        }
        var name, argument, consumed := SplitToken(body, argv[i + 1..]);
        if consumed == 2 {
          i := i + 1;
        }
        if isShort {
          if |name| == 1 {
            r := ProcessShortOption(name[0], argument);
          } else {
            r := ProcessCluster(name, argument);
          }
        } else {
          r := ProcessLongOption(name, argument);
        }
        if r.Fail? {
          return;
        }
        assert tokens[1..] == argv[i - consumed + 2..];
        assert tokens[consumed..] == argv[i + 1..];
        i := i + 1;
      }
      return Pass;
    }

    /** `get_option_value<T>(long_identifier)` (parser.h:271-280): the stored value when there is
        one and it holds the alternative asked for. The source's `T` defaults to `bool`, so a
        call without a type argument is `GetOptionValue(name, Bool)`. */
    function GetOptionValue(longIdentifier: string, alternative: ArgumentType): (r: Option<Value>)
      reads this
      ensures r.Some? <==> longIdentifier in parsed && parsed[longIdentifier].Alternative() == alternative
      ensures r.Some? ==> r.value == parsed[longIdentifier] && r.value.Alternative() == alternative
    {
      if longIdentifier in parsed && parsed[longIdentifier].Alternative() == alternative then
        Some(parsed[longIdentifier])
      else
        None
    }

    /** The one check of `print_options` (parser.h:284-295): every non-empty name of an explicit
        print order must be an option; the first that is not stops the program. The empty order
        prints every option and cannot fail. */
    method PrintOptions(printOrder: seq<string>) returns (r: Outcome<Error>)
      ensures r.Pass? <==> forall k :: 0 <= k < |printOrder| && printOrder[k] != "" ==> printOrder[k] in options
      ensures r.Fail? ==>
                exists k :: 0 <= k < |printOrder| && printOrder[k] != "" && printOrder[k] !in options
                            && r.error == NotAnExistingOption(printOrder[k])
                            && forall m :: 0 <= m < k && printOrder[m] != "" ==> printOrder[m] in options
    {
      for k := 0 to |printOrder|
        invariant forall m :: 0 <= m < k && printOrder[m] != "" ==> printOrder[m] in options
      {
        if printOrder[k] == "" {
          continue;
        }
        if printOrder[k] !in options {
          return Fail(NotAnExistingOption(printOrder[k]));
        }
      }
      return Pass;
    }
  }
}
