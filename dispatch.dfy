/** The meaning of `parse` (parser.h:225-269) and of the two option handlers it calls,
    `process_long_option` (parser.h:77-132) and `process_short_option` (parser.h:134-156), as
    functions from the parser's two maps and the remaining tokens to the new maps or the error
    that stops the parse. The class in OptionParser is proved to compute exactly these. */
module Dispatch {
  import opened Wrappers
  import opened Coercion
  import opened Registry

  /** The two maps the parser mutates: `m_options` and `m_parsed_options`. */
  datatype State = State(options: Registry, parsed: Store)

  /** What every reachable parser state satisfies: the registry invariant, and every stored value
      sits under a key of the registry. */
  ghost predicate Consistent(st: State) {
    WellFormed(st.options) && st.parsed.Keys <= st.options.Keys
  }

  /** `s.rfind(prefix, 0) == 0`. */
  predicate StartsWith(s: string, prefix: string) {
    |prefix| <= |s| && s[..|prefix|] == prefix
  }

  /** `string_view::find` for one character: the first position of `c` in `s`. */
  function Find(s: string, c: char): (r: Option<nat>)
    ensures r.Some? ==> r.value < |s| && s[r.value] == c && c !in s[..r.value]
    ensures r.None? ==> c !in s
  {
    if s == [] then None
    else if s[0] == c then Some(0)
    else match Find(s[1..], c)
      case None => None
      case Some(p) =>
        assert s[..p + 1] == [s[0]] + s[1..][..p];
        Some(p + 1)
  }

  /** The registry after `m_options[name]`: when `name` is not a key, `operator[]` inserts a
      value-initialised option under it. */
  function Subscript(options: Registry, name: string): (r: Registry)
    ensures r.Keys == options.Keys + {name}
    ensures r[name] == if name in options then options[name] else DefaultOption
    ensures forall key :: key in options ==> r[key] == options[key]
  {
    if name in options then options else options[name := DefaultOption]
  }

  /** The lookahead's insertion keeps the state invariant: the inserted entry owns no short
      identifier. */
  lemma SubscriptKeepsConsistent(st: State, name: string)
    requires Consistent(st)
    ensures Consistent(State(Subscript(st.options, name), st.parsed))
  {
    var options := Subscript(st.options, name);
    forall k1, k2, c | OwnsShort(options, k1, c) && OwnsShort(options, k2, c)
      ensures k1 == k2
    {
      assert OwnsShort(st.options, k1, c) && OwnsShort(st.options, k2, c);
    }
  }

  /** How one token's text after the dashes splits into an option name and an argument, what
      the lookahead did to the registry, and how many tokens the step used (1 or 2). */
  datatype Resolved = Resolved(name: string, argument: string, options: Registry, consumed: nat)

  /** Lines 244-252: split `body` at its first '='; without '=', and only when a next token exists
      (`rest` is the tokens after the current one), look `body` up with `operator[]` and take the
      next token as the argument if that entry requires one. */
  function Resolve(options: Registry, body: string, rest: seq<string>): (r: Resolved)
    ensures '=' !in r.name
    ensures '=' in body ==> body == r.name + "=" + r.argument && r.options == options && r.consumed == 1
    ensures '=' !in body ==> r.name == body
    ensures '=' !in body ==>
              (r.consumed == 2 <==> |rest| > 0 && body in options && options[body].requiresArgument)
    ensures r.consumed == 1 || r.consumed == 2
    ensures r.consumed == 2 ==> r.argument == rest[0]
    ensures '=' !in body && r.consumed == 1 ==> r.argument == ""
    ensures '=' !in body ==> r.options == if |rest| > 0 then Subscript(options, body) else options
  {
    match Find(body, '=')
    case Some(p) =>
      assert body == body[..p] + "=" + body[p + 1..];
      Resolved(body[..p], body[p + 1..], options, 1)
    case None =>
      if |rest| > 0 then
        var looked := Subscript(options, body);
        if looked[body].requiresArgument then Resolved(body, rest[0], looked, 2)
        else Resolved(body, "", looked, 1)
      else Resolved(body, "", options, 1)
  }

  /** `process_long_option(name, argument)`: an unknown name stops the parse; an option that
      requires an argument needs a non-empty one that coerces to its type; a flag stores true,
      ignoring any argument. Only the entry under `name` changes. */
  function LongStep(options: Registry, parsed: Store, name: string, argument: string,
                    toDouble: string -> Option<real>): (r: Result<Store, Error>)
    ensures name !in options ==> r == Failure(UnknownOption(name))
    ensures name in options && options[name].requiresArgument && argument == "" ==>
              r == Failure(MissingArgument(name))
    ensures r.Success? <==>
              name in options
              && (options[name].requiresArgument ==>
                    argument != "" && Coerce(options[name].argumentType, argument, toDouble).Some?)
    ensures r.Failure? && name in options && argument != "" ==>
              r.error == WrongArgumentType(name, options[name].argumentType)
    ensures r.Success? ==> r.value.Keys == parsed.Keys + {name}
    ensures r.Success? ==> forall key :: key in parsed && key != name ==> r.value[key] == parsed[key]
    ensures r.Success? && !options[name].requiresArgument ==> r.value[name] == BoolValue(true)
    ensures r.Success? && options[name].requiresArgument ==>
              Coerce(options[name].argumentType, argument, toDouble) == Some(r.value[name])
  {
    if name !in options then Failure(UnknownOption(name))
    else if options[name].requiresArgument then
      if argument == "" then Failure(MissingArgument(name))
      else match Coerce(options[name].argumentType, argument, toDouble)
        case Some(v) => Success(parsed[name := v])
        case None => Failure(WrongArgumentType(name, options[name].argumentType))
    else Success(parsed[name := BoolValue(true)])
  }

  /** The body of `process_short_option`'s loop for the option `o` that owns the short identifier
      `c` (parser.h:140-152): an option that requires an argument needs a non-empty one and stores
      it as text, uncoerced; a flag stores the text " ". */
  function OwnerStep(o: OptionSpec, parsed: Store, c: char, argument: string): (r: Result<Store, Error>)
    ensures r.Failure? <==> o.requiresArgument && argument == ""
    ensures r.Failure? ==> r.error == MissingShortArgument(c)
    ensures r.Success? ==>
              r.value == parsed[o.longIdentifier := TextValue(if o.requiresArgument then argument else " ")]
  {
    if o.requiresArgument then
      if argument == "" then Failure(MissingShortArgument(c))
      else Success(parsed[o.longIdentifier := TextValue(argument)])
    else Success(parsed[o.longIdentifier := TextValue(" ")])
  }

  /** `process_short_option(c, argument)`: the loop visits every option and acts on the ones that
      own `c`; the registry invariant leaves at most one. An unknown `c` changes nothing. */
  ghost function ShortStep(options: Registry, parsed: Store, c: char, argument: string): (r: Result<Store, Error>)
    ensures !ShortTaken(options, c) ==> r == Success(parsed)
    ensures WellFormed(options) ==>
              forall key :: OwnsShort(options, key, c) ==> r == OwnerStep(options[key], parsed, c, argument)
  {
    if ShortTaken(options, c) then
      var key :| OwnsShort(options, key, c);
      OwnerStep(options[key], parsed, c, argument)
    else Success(parsed)
  }

  /** Lines 258-265: every character of a stacked cluster goes through `process_short_option`
      with the same argument, left to right, until one fails. */
  ghost function Cluster(options: Registry, parsed: Store, cluster: string, argument: string): Result<Store, Error>
    decreases |cluster|
  {
    if cluster == [] then Success(parsed)
    else match ShortStep(options, parsed, cluster[0], argument)
      case Failure(e) => Failure(e)
      case Success(p) => Cluster(options, p, cluster[1..], argument)
  }

  /** Lines 254-266: a one-character name goes straight to `process_short_option`, any other
      length through the stacking loop. */
  ghost function ShortToken(options: Registry, parsed: Store, name: string, argument: string): Result<Store, Error> {
    if |name| == 1 then ShortStep(options, parsed, name[0], argument)
    else Cluster(options, parsed, name, argument)
  }

  /** The state after one token and the number of tokens it used. */
  datatype Progress = Progress(state: State, consumed: nat)

  /** One turn of the loop of `parse` on the token `tokens[0]` (lines 229-267). */
  ghost function Step(st: State, tokens: seq<string>, toDouble: string -> Option<real>): (r: Result<Progress, Error>)
    requires tokens != []
    ensures r.Success? ==> 1 <= r.value.consumed <= |tokens| && r.value.consumed <= 2
  {
    var token := tokens[0];
    if StartsWith(token, "--") then
      var res := Resolve(st.options, token[2..], tokens[1..]);
      match LongStep(res.options, st.parsed, res.name, res.argument, toDouble)
      case Failure(e) => Failure(e)
      case Success(p) => Success(Progress(State(res.options, p), res.consumed))
    else if StartsWith(token, "-") then
      var res := Resolve(st.options, token[1..], tokens[1..]);
      match ShortToken(res.options, st.parsed, res.name, res.argument)
      case Failure(e) => Failure(e)
      case Success(p) => Success(Progress(State(res.options, p), res.consumed))
    else Failure(UnrecognizedOptionFormat(token))
  }

  /** The loop of `parse` over the tokens that remain. */
  ghost function Run(st: State, tokens: seq<string>, toDouble: string -> Option<real>): Result<State, Error>
    decreases |tokens|
  {
    if tokens == [] then Success(st)
    else match Step(st, tokens, toDouble)
      case Failure(e) => Failure(e)
      case Success(progress) => Run(progress.state, tokens[progress.consumed..], toDouble)
  }

  /** `parse(argc, argv)`: `argv[0]` is the program name and is skipped. */
  ghost function Parse(st: State, argv: seq<string>, toDouble: string -> Option<real>): Result<State, Error> {
    if |argv| < 2 then Success(st) else Run(st, argv[1..], toDouble)
  }
}
