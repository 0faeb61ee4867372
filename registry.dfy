/** The parser's data model: declared options (`struct Option`, parser.h:25-31), the values the
    parse stores (`parsed_option_types`, parser.h:23), the reasons the parser stops with
    `std::exit(1)`, the coercion switch of `process_long_option` and the registration rule of the
    four `add_option` overloads (parser.h:165-223). */
module Registry {
  import opened Wrappers
  import opened Coercion

  /** `Parser::Argument_Types` (parser.h:15-20). It also names the alternatives of the stored
      variant, which correspond one to one: int, double, bool, string_view. */
  datatype ArgumentType = Int | Double | Bool | StringView

  /** One declared option (`struct Option`). */
  datatype OptionSpec = OptionSpec(
    requiresArgument: bool,
    argumentType: ArgumentType,
    description: string,
    longIdentifier: string,
    shortIdentifier: Option<char>)

  /** What `m_options[name]` value-initialises when `name` is not a key: every field zero, so no
      argument, the first enumerator (Int), empty texts and no short identifier. */
  const DefaultOption: OptionSpec := OptionSpec(false, Int, "", "", None)

  /** One stored value: an alternative of `std::variant<int, double, bool, std::string_view>`. */
  datatype Value = IntValue(i: int) | DoubleValue(d: real) | BoolValue(b: bool) | TextValue(s: string) {

    /** The alternative the variant holds. */
    function Alternative(): ArgumentType {
      match this
      case IntValue(_) => Int
      case DoubleValue(_) => Double
      case BoolValue(_) => Bool
      case TextValue(_) => StringView
    }
  }

  /** Why the parser stops: one constructor per kind of reachable `std::exit(1)` of the source,
      with the name it reports. The stacking exit of parser.h:260-262 cannot be reached and has
      none. */
  datatype Error =
    | DuplicateLongIdentifier(name: string)         // parser.h:168-171 and its three copies
    | DuplicateShortIdentifier(shortName: char)     // parser.h:196-201, 215-220
    | UnrecognizedOptionFormat(token: string)       // parser.h:239-242
    | UnknownOption(name: string)                   // parser.h:78-82
    | MissingArgument(name: string)                 // parser.h:85-89
    | MissingShortArgument(shortName: char)         // parser.h:143-147
    | WrongArgumentType(name: string, expected: ArgumentType)  // parser.h:98-100, 109-111, 120-122
    | NotAnExistingOption(name: string)             // parser.h:292-295

  /** `m_options`: declared options keyed by long identifier. */
  type Registry = map<string, OptionSpec>

  /** `m_parsed_options`: stored values keyed by long identifier. */
  type Store = map<string, Value>

  /** Option `key` owns the short identifier `c`. */
  ghost predicate OwnsShort(options: Registry, key: string, c: char) {
    key in options && options[key].shortIdentifier == Some(c)
  }

  /** Some option owns the short identifier `c`. */
  ghost predicate ShortTaken(options: Registry, c: char) {
    exists key :: OwnsShort(options, key, c)
  }

  /** The registry invariant that registration keeps: an option with a short identifier is stored
      under its own long identifier, and no two options own the same short identifier. */
  ghost predicate WellFormed(options: Registry) {
    && (forall key :: key in options && options[key].shortIdentifier.Some? ==> options[key].longIdentifier == key)
    && (forall k1, k2, c :: OwnsShort(options, k1, c) && OwnsShort(options, k2, c) ==> k1 == k2)
  }

  /** The rule all four `add_option` overloads follow: refuse a long identifier that is already a
      key; then, when a short identifier is given, refuse it if any option owns it; otherwise add
      the one entry. */
  ghost function Register(options: Registry, decl: OptionSpec): (r: Result<Registry, Error>)
    ensures r.Success? <==> decl.longIdentifier !in options
                            && (decl.shortIdentifier.None? || !ShortTaken(options, decl.shortIdentifier.value))
    ensures r.Failure? && decl.longIdentifier in options ==> r.error == DuplicateLongIdentifier(decl.longIdentifier)
    ensures r.Failure? && decl.longIdentifier !in options ==> r.error == DuplicateShortIdentifier(decl.shortIdentifier.value)
    ensures r.Success? ==> r.value.Keys == options.Keys + {decl.longIdentifier}
    ensures r.Success? ==> r.value[decl.longIdentifier] == decl
    ensures r.Success? ==> forall key :: key in options ==> r.value[key] == options[key]
  {
    if decl.longIdentifier in options then Failure(DuplicateLongIdentifier(decl.longIdentifier))
    else if decl.shortIdentifier.Some? && ShortTaken(options, decl.shortIdentifier.value) then
      Failure(DuplicateShortIdentifier(decl.shortIdentifier.value))
    else Success(options[decl.longIdentifier := decl])
  }

  /** Registration keeps the registry invariant: after any successful `add_option`, at most one
      option owns any short identifier. */
  lemma RegisterKeepsWellFormed(options: Registry, decl: OptionSpec)
    requires WellFormed(options)
    requires Register(options, decl).Success?
    ensures WellFormed(Register(options, decl).value)
  {
    var r := Register(options, decl).value;
    forall k1, k2, c | OwnsShort(r, k1, c) && OwnsShort(r, k2, c)
      ensures k1 == k2
    {
      if k1 != k2 {
        if k1 == decl.longIdentifier {
          assert k2 in options && OwnsShort(options, k2, c);
          assert ShortTaken(options, c);
        } else if k2 == decl.longIdentifier {
          assert k1 in options && OwnsShort(options, k1, c);
          assert ShortTaken(options, c);
        } else {
          assert OwnsShort(options, k1, c) && OwnsShort(options, k2, c);
        }
      }
    }
  }

  /** A second registration under the same long identifier always fails, whatever else it says. */
  lemma SameLongTwiceFails(options: Registry, first: OptionSpec, second: OptionSpec)
    requires Register(options, first).Success?
    requires second.longIdentifier == first.longIdentifier
    ensures Register(Register(options, first).value, second) == Failure(DuplicateLongIdentifier(first.longIdentifier))
  {
  }

  /** A second registration of the same short identifier always fails: with the short-identifier
      error unless its long identifier is already taken. */
  lemma SameShortTwiceFails(options: Registry, first: OptionSpec, second: OptionSpec, c: char)
    requires Register(options, first).Success?
    requires first.shortIdentifier == Some(c) && second.shortIdentifier == Some(c)
    ensures Register(Register(options, first).value, second).Failure?
    ensures second.longIdentifier !in Register(options, first).value ==>
              Register(Register(options, first).value, second) == Failure(DuplicateShortIdentifier(c))
  {
    assert OwnsShort(Register(options, first).value, first.longIdentifier, c);
  }

  /** The coercion switch of `process_long_option` (parser.h:91-127), for an option whose
      argument type is `t`: Int through `to_int`, Double through the host's `toDouble`, Bool
      through `to_bool`, String_View verbatim. None is the "requires a ... argument" failure. */
  function Coerce(t: ArgumentType, token: string, toDouble: string -> Option<real>): (r: Option<Value>)
    ensures r.Some? ==> r.value.Alternative() == t
    ensures t == Int ==> (r.Some? <==> IsIntegerLiteral(token) && IntMin <= LiteralValue(token) <= IntMax)
    ensures t == Int && r.Some? ==> r.value == IntValue(LiteralValue(token))
    ensures t == Bool ==> forall b :: r == Some(BoolValue(b)) <==> token == BoolText(b)
    ensures t == Double ==> (r.Some? <==> toDouble(token).Some?)
    ensures t == Double && r.Some? ==> r.value == DoubleValue(toDouble(token).value)
    ensures t == StringView ==> r == Some(TextValue(token))
  {
    match t
    case Int =>
      ToIntAcceptsExactlyLiterals(token);
      (match ToInt(token) case Some(n) => Some(IntValue(n)) case None => None)
    case Double => (match toDouble(token) case Some(d) => Some(DoubleValue(d)) case None => None)
    case Bool => (match ToBool(token) case Some(b) => Some(BoolValue(b)) case None => None)
    case StringView => Some(TextValue(token))
  }
}
