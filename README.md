# A verified model of a small C++ command-line option parser

The parser is one header, `parser.h`, holding one class, `Parser`. A host program declares its
options with four `add_option` overloads. Each option has a long identifier, an optional
one-character short identifier, a description, and whether it takes an argument of type int,
double, bool or `string_view`. The host then hands `argv` to `parse`. `parse` walks the tokens
once and stores a value per option, then the host reads the values back with
`get_option_value<T>`. Every error ends the process with `std::exit(1)`.

The model has seven modules:

- `Wrappers`: `Option`, `Result` and `Outcome`.
- `Coercion`: `to_int` is modelled as a function over the behaviour of `std::from_chars`
  (an optional `-`, the longest run of digits, range check against a 32-bit `int`), followed by
  the whole-token check. `to_bool` is a function too.
- `Registry`:
  - the option record (`OptionSpec`);
  - the stored variant (`Value`);
  - one `Error` constructor per kind of reachable `std::exit(1)`, each recording the name it
    reports;
  - the registration rule shared by the four overloads (`Register`);
  - the registry invariant (`WellFormed`): at most one option owns any short identifier, and an
    option with one is keyed by its own long identifier;
  - the type switch of `process_long_option` (`Coerce`).
- `Dispatch`: the meaning of `parse` as functions over the two maps and the remaining tokens.
  - `Resolve`: the split at the first `=` and the one-token lookahead. The lookahead goes
    through `operator[]`, so it inserts an entry for an unknown name.
  - `LongStep`: `process_long_option`.
  - `ShortStep`: `process_short_option`.
  - `Cluster`: the stacking loop.
  - `Step`, `Run` and `Parse`: one token, the rest of the tokens, and all of `argv`.
- `OptionParser`: the class `Parser`, with `m_options` and `m_parsed_options` as two map fields
  that its methods reassign. Each method is written the way the source is:
  - the loops over the registry visit the keys in no particular order, as an `unordered_map`
    does;
  - `parse` is an index loop that skips a consumed value.

  Each method is proved to compute exactly what the `Dispatch` and `Registry` functions say,
  and to keep the class invariant `Valid()`.
- `Properties`: lemmas about those functions.
  - The whole parse keeps the invariant and only ever adds to the two maps.
  - `--name=value` and `--name value` behave the same.
  - A stacked cluster of flags marks every owner.
  - The four behaviours where the code departs from its own evident intent: unknown long
    names, short values, stacked `=`, and the stored text.
- `Examples`: the declarations of the host program `example.cpp` and what complete command
  lines do with them.

`to_double` is `std::stod` with exceptions. It is a parameter of the class: a function
`string -> Option<real>` supplied when the parser is built.

## Model

| member | source | states |
|---|---|---|
| Coercion.FromChars | parser.h:40 | `from_chars` stops within the token, and a value it reports without error lies in the range of a 32-bit `int` |
| Coercion.ToInt | parser.h:37-47 | an accepted token's value lies in `[-2^31, 2^31-1]` |
| Coercion.ToIntAcceptsExactlyLiterals | parser.h:37-47 | `to_int` answers exactly for a whole-token base-10 literal (optional `-`, at least one digit, nothing else) whose value fits an `int`, and answers that literal's value |
| Coercion.ToIntOfDecimal | parser.h:37-47 | round trip: `to_int` of the decimal rendering of any `int` gives it back |
| Coercion.IntExamples | parser.h:37-47 | `"42"`, `"-7"` and `"-2147483648"` convert to 42, -7 and the smallest `int` |
| Coercion.IntRejections | parser.h:41-45 | `"42x"`, `"+7"`, `" 7"`, `"-"` and `""` are refused |
| Coercion.ToBool | parser.h:66-74 | `to_bool` answers `b` if and only if the token is exactly `"true"` (for true) or `"false"` (for false) |
| Coercion.BoolExamples | parser.h:66-74 | `"True"`, `"1"` and `""` are refused; `"true"` and `"false"` accepted |
| Registry.Register | parser.h:165-223 | registration succeeds if and only if the long identifier is new and any short identifier is unowned. A taken long identifier reports the long error, otherwise the short error. On success exactly the new entry is added and every other entry is unchanged |
| Registry.RegisterKeepsWellFormed | parser.h:192-203 | a successful registration keeps the invariant that at most one option owns any short identifier |
| Registry.SameLongTwiceFails | parser.h:168-171 | registering the same long identifier a second time always fails with the long-identifier error |
| Registry.SameShortTwiceFails | parser.h:196-201 | registering the same short identifier a second time always fails, with the short-identifier error when its long identifier is new |
| Registry.Coerce | parser.h:91-127 | the coerced value holds the alternative of the declared type. Int accepts exactly the in-range literals with their value, Bool exactly `"true"`/`"false"`, Double exactly what `to_double` accepts and stores the double it returns, and String_View keeps the token verbatim |
| Dispatch.Find | parser.h:245 | the position found is the first `=` in the name; no position means there is no `=` |
| Dispatch.Subscript | parser.h:251 | `m_options[name]` leaves every existing entry as it was and adds `name` with a value-initialised option when it was missing |
| Dispatch.SubscriptKeepsConsistent | parser.h:251 | the entry inserted by the lookahead keeps the registry invariant and the store's keys within the registry |
| Dispatch.Resolve | parser.h:244-252 | with `=`, the name is the text before the first `=` and the argument the text after it, and nothing else is touched. Without `=`, the next token is consumed if and only if one exists and `m_options[name]` requires an argument, and the registry gains `name` only when a next token exists |
| Dispatch.LongStep | parser.h:77-132 | an unknown name fails with "unknown option", and a required but empty argument with "requires an argument". Otherwise success exactly when the argument coerces to the declared type, storing that value, or `true` for a flag whatever was attached. Only the entry under the name changes |
| Dispatch.OwnerStep | parser.h:140-152 | for the owner of a short identifier: fails exactly when it needs an argument and the argument is empty. Otherwise it stores the argument as raw text, or `" "` for a flag, under the owner's long identifier |
| Dispatch.ShortStep | parser.h:134-156 | a short identifier no option owns changes nothing; otherwise the result is that of its unique owner, whatever the iteration order |
| Dispatch.Step | parser.h:229-267 | a successful turn of the loop uses one or two tokens (one `argv[++i]` at most) and never more than remain |
| Properties.BareTokenFails | parser.h:234-242 | a token that does not start with `-` stops the parse with "unrecognized option format", whatever the state and the tokens after it |
| OptionParser.Parser.constructor | parser.h:161-163 | a new parser has no options and no values, and satisfies the invariant |
| OptionParser.Parser.HasShortOwner | parser.h:196-201 | the scan over the registry finds an owner of `c` if and only if one exists |
| OptionParser.Parser.Declare | parser.h:165-223 | the shared body of the overloads returns exactly `Register`'s verdict, leaves the registry as `Register` says and keeps the invariant |
| OptionParser.Parser.AddOption | parser.h:165-174 | fails if and only if the long identifier exists, and then leaves the registry as it was. Otherwise it adds exactly one flag (no argument, Bool, no short identifier) |
| OptionParser.Parser.AddTypedOption | parser.h:176-186 | fails if and only if the long identifier exists. Otherwise it adds exactly one option that requires an argument of the given type |
| OptionParser.Parser.AddShortOption | parser.h:188-204 | fails if and only if the long identifier exists (long error) or the short one is owned (short error). Otherwise it adds exactly one flag owning the short identifier |
| OptionParser.Parser.AddShortTypedOption | parser.h:206-223 | as above, for an option that requires an argument of the given type |
| OptionParser.Parser.ProcessLongOption | parser.h:77-132 | outcome and new store are exactly `LongStep`'s; the invariant is kept |
| OptionParser.Parser.ProcessShortOption | parser.h:134-156 | the loop over every option, visited in any order, gives exactly `ShortStep`'s outcome and store; the invariant is kept |
| OptionParser.Parser.SplitToken | parser.h:244-252 | name, argument, number of tokens used and the registry after the lookahead are exactly `Resolve`'s |
| OptionParser.Parser.ProcessCluster | parser.h:257-265 | the stacking loop gives exactly `Cluster`'s outcome and store; the stacking error cannot be reached because the name holds no `=` |
| OptionParser.Parser.Parse | parser.h:225-269 | the index loop, with its skip over a consumed value, gives exactly the outcome and final maps of `Dispatch.Parse`; the invariant is kept |
| OptionParser.Parser.GetOptionValue | parser.h:271-280 | answers if and only if a value is stored under the identifier and holds the alternative asked for, and then answers that value; it reads and changes nothing else |
| OptionParser.Parser.PrintOptions | parser.h:282-295 | succeeds if and only if every non-empty name of the print order is an option. It fails on the first name that is not, reporting that name |
| Properties.ShortTokenShape | parser.h:234-238 | a token of one `-` followed by anything but `-` takes the short path |
| Properties.ClusterKeepsKeys | parser.h:134-156 | the short path stores only under registered keys and never removes a value |
| Properties.ClusterOfOne | parser.h:254-266 | the stacking loop on a one-character name does what the direct call does |
| Properties.StepKeepsConsistent | parser.h:229-267 | one token keeps the invariant; options are never changed or removed, new ones are only lookahead defaults, and no value is removed |
| Properties.RunKeepsConsistent | parser.h:228-268 | the same holds for a whole parse |
| Properties.FindAfterPrefix | parser.h:245 | in `a=b` with no `=` in `a`, the first `=` is the one after `a` |
| Properties.SplitIsUnique | parser.h:245-250 | the split at the first `=` is unique |
| Properties.EqualsFormMatchesNextToken | parser.h:244-252 | for an option that requires an argument, `--name=value` and `--name value` lead to the same result |
| Properties.LongOptionTakesNextToken | parser.h:251-252 | `--name value` consumes `value`, coerces it and goes on after it |
| Properties.PresenceWithOwner | parser.h:136-152 | adding a character with an owner to a cluster marks exactly that owner in addition |
| Properties.PresenceWithoutOwner | parser.h:136-138 | adding a character nobody owns marks nothing more |
| Properties.ClusterOfFlags | parser.h:257-265 | a cluster whose owners are all flags stores `" "` for exactly the owners of its characters, skips unowned characters and changes nothing else |
| Properties.PresenceAfterSubscript | parser.h:251 | the lookahead's inserted entry owns no short identifier |
| Properties.StackedFlagsToken | parser.h:234-266 | `-abc` of flags uses one token, marks every owner with `" "`, and leaves an entry `"abc"` in the registry when a token follows |
| Properties.UnknownLongAsLastTokenFails | parser.h:78-82 | an undeclared `--name` as the last token fails with "unknown option" |
| Properties.UnknownLongWithValueFails | parser.h:78-82 | an undeclared `--name=value` fails with "unknown option" whatever follows it, because the split at parser.h:248-250 skips the inserting lookahead |
| Properties.UnknownLongBeforeAnotherTokenIsFlag | parser.h:251 | an undeclared `--name` followed by any token is registered by the lookahead as a flag, stores `true`, and the parse goes on with that token |
| Properties.ShortValueNotConsumed | parser.h:251-256 | `-c value`, where the owner of `c` needs an argument and no long option named `c` does, does not take `value` and fails with the short "requires an argument" error |
| Properties.ShortAttachedValueIsText | parser.h:149 | `-c=value` stores `value` as text for an option of any declared type, so for an Int, Double or Bool option the stored alternative is not the declared one |
| Properties.EmptyClusterStoresNothing | parser.h:245-265 | `-` and `-=anything` store nothing, and `-=anything` leaves the state as it was |
| Properties.LaterLongStoreWins | parser.h:95-130 | a long option given twice ends with the value of the later occurrence |
| Properties.StoredAlternative | parser.h:271-280 | after the long path, the value under the name holds the declared type, or bool for a flag. After the short path it always holds `string_view` |
| Examples.ExampleRegistration | parser.h:188-223 | `example.cpp`'s three declarations (`-h/--help`, `-i/--input`, `-o/--output`) succeed in turn and give a well-formed registry |
| Examples.LongFormsParse | parser.h:225-269 | `--input=foo.txt --output true` stores the text `foo.txt` and the bool true, and changes no option |
| Examples.ShortOutputWithSeparateValueFails | parser.h:251-256 | `--input=foo.txt -o true` fails with the short "requires an argument" error for `o` |
| Examples.InputWithoutValueFails | parser.h:85-89 | `--input` as the last token fails with "requires an argument" |
| Examples.UnknownOptionFails | parser.h:78-82 | `--bogus` fails with "unknown option" |
| Examples.BareWordFails | parser.h:239-242 | `foo.txt` in option position fails with "unrecognized option format" |
| Examples.HelpThenUnknownShort | parser.h:251-256 | `-h -z` stores the text `" "` under `help`, leaves a default entry `h` in the registry and ignores `-z` |
| Examples.UnknownShortIgnored | parser.h:134-156 | `-z` with no owner succeeds and changes nothing |

`Dispatch.StartsWith`, `Dispatch.Cluster`, `Dispatch.ShortToken`, `Dispatch.Run` and
`Dispatch.Parse` have no contract of their own. They define:
- the prefix tests `arg.rfind("--", 0) == 0` and `arg.rfind("-", 0) == 0` (parser.h:234, 236);
- the stacking loop (parser.h:257-265);
- the one-or-many choice (parser.h:254-266);
- the token loop (parser.h:228-268);
- the `argc < 2` early return (parser.h:226).

The lemmas and method contracts above are stated in their terms.

## Where the code departs from its own evident intent

In five places the code's behaviour goes against what its own checks, comments and host program
show was meant. The model follows the code each time.

- **Short options are not coerced.** The comment at parser.h:139 says the short path only turns
  the short identifier into the long one. Yet the short path stores the raw argument as text
  (parser.h:149), and a flag stores the text `" "` (parser.h:151), not `true`. So
  `get_option_value<int>` or `get_option_value<bool>` answers none after `-n=5` or `-h`
  (`ShortAttachedValueIsText`, `StoredAlternative`, `HelpThenUnknownShort`). The host program
  `example.cpp` (lines 13 and 18) asks `get_option_value<bool>` for `help` and `output`, and so
  does not see `-h` or `-o=true`. This reading of line 151 assumes the C++20 rule for
  assigning to a variant; see "## Left out".
- **`-n value` does not take the value.** The check at parser.h:141-147 reports "requires an
  argument" for a short option, so the short path expects a value to arrive. The lookahead,
  however, is keyed by the text after the dash (parser.h:251). So the next token is consumed
  only when a *long* option literally named `n` requires an argument. `-o true` therefore fails
  with "option -o requires an argument" (`ShortValueNotConsumed`,
  `ShortOutputWithSeparateValueFails`).
- **The stacked `=` error cannot happen.** The check at parser.h:259-263 means to reject `=`
  inside a stacked cluster. The split at parser.h:248-250 has already removed the first `=` and
  everything after it, so that check never fires. `-ab=x` gives `x` to both `a` and `b`
  (`OptionParser.Parser.ProcessCluster`).
- **An unknown long option is not always fatal.** The check at parser.h:78-82 means to stop on
  any undeclared long name. It does stop the parse in two cases:
  - when the name is written with `=` (`--bogus=x`), wherever it stands, because the split skips
    the lookahead (`UnknownLongWithValueFails`);
  - when the name is written without `=` as the last token (`UnknownLongAsLastTokenFails`).

  Written without `=` and followed by another token, `m_options[name]` at parser.h:251 first
  inserts a default entry. That entry is a flag, so the name is then known and stores `true`
  (`UnknownLongBeforeAnotherTokenIsFlag`). The same insertion happens for short names: `-h -z`
  leaves an entry `h` (`HelpThenUnknownShort`).
- **A flag's stored value depends on the path.** The long path stores `true` for a flag
  (parser.h:130), and the short path stores text (parser.h:151). So the same option reads
  differently depending on how it was written.

Separately from those five, and without any sign in the source of another intent: without an
explicit order, `print_options` lists the options in the iteration order of the
`unordered_map` (parser.h:304), which is unspecified. `example.cpp` passes an explicit order
(line 14).

## Left out

- `to_double` (parser.h:49-64): `std::stod` and its exceptions are not modelled. The class
  takes the conversion as a function `string -> Option<real>`, and a double is a `real`, not an
  IEEE value.
- `print_options` output (parser.h:283, 287, 298-309): the text written to `std::cout` is not
  modelled. Only its check that every name of an explicit order is an option is modelled.
- Diagnostics: the `std::cerr` messages are not modelled. Each `std::exit(1)` becomes an
  `Error` that records the reason and the name or token the message would show.
- `get_program_name` (parser.h:159) only returns `m_program_name`. It is the constant field
  `programName`.
- OptionParser.Parser.Parse: says nothing of the two maps after a failure, because the source
  ends the process there.
- OptionParser.Parser.ProcessLongOption: says nothing of the store after a failure, for the
  same reason.
- OptionParser.Parser.ProcessShortOption: says nothing of the store after a failure, for the
  same reason.
- OptionParser.Parser.ProcessCluster: says nothing of the store after a failure, for the same
  reason.
- `example.cpp` and `main.cpp` are host programs and are not part of this model.
  `example.cpp`'s declarations appear in `Examples` only as data. `main.cpp` is written
  against an older interface that `parser.h` no longer has.
- `string_view` lifetimes, the aliasing of `argv`, and the rehashing of `unordered_map` are
  C++ memory details with no effect on the results.
- Iteration order of `unordered_map`: the loops choose keys in any order, and the results are
  proved independent of that order.
- `int` is taken to be 32 bits wide, which is the range `to_int` checks against.
- `argc`/`argv` become one sequence of strings; `argv[0]` is skipped as in the source.
- Dispatch.OwnerStep: for a flag, stores the text `" "` (parser.h:151). That is what assigning a
  `const char*` to the variant does under the C++20 rule for converting assignment to a
  variant. Standard libraries without that rule pick the standard conversion to `bool`, and
  store `true`. With them `-h` would answer `get_option_value<bool>("help")`. The model does
  not capture that older behaviour.
- Characters: C++ `char` is a byte, and the stacking loop (parser.h:255-264) walks the token
  byte by byte. The model treats a token as a sequence of single-byte characters, so it matches
  the source only for ASCII text. Outside that range there are two differences. A multi-byte
  UTF-8 character such as `-é` is one short name in the model, but a cluster of several bytes
  in the source. And a short identifier can be a character that no C++ `char` holds.
