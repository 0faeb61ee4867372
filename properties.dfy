/** What the parse promises, and the places where it behaves other than its own checks and comments
    suggest (the unreachable stacking error, the "requires an argument" comments), proved
    about the functions of Dispatch (and so, through the method contracts, about the class). */
module Properties {
  import opened Wrappers
  import opened Registry
  import opened Dispatch

  /** `after` grew out of `before` the only ways a parse can: options are never changed or
      removed, the only new options are the value-initialised entries of the lookahead, and no
      stored value is ever removed. */
  ghost predicate Extends(before: State, after: State) {
    && (forall key :: key in before.options ==> key in after.options && after.options[key] == before.options[key])
    && (forall key :: key in after.options && key !in before.options ==> after.options[key] == DefaultOption)
    && before.parsed.Keys <= after.parsed.Keys
  }

  /** A token is a short one when it starts with '-' and its second character, if any, is not. */
  lemma ShortTokenShape(token: string)
    requires |token| >= 1 && token[0] == '-'
    requires |token| < 2 || token[1] != '-'
    ensures StartsWith(token, "-") && !StartsWith(token, "--")
  {
    if |token| >= 2 {
      assert token[..2][1] == token[1];
    }
    assert token[..1] == "-";
  }

  /** A short option stores under a registered key and never removes a value. */
  lemma {:induction false} ClusterKeepsKeys(options: Registry, parsed: Store, cluster: string, argument: string)
    requires WellFormed(options) && parsed.Keys <= options.Keys
    requires Cluster(options, parsed, cluster, argument).Success?
    ensures parsed.Keys <= Cluster(options, parsed, cluster, argument).value.Keys <= options.Keys
    decreases |cluster|
  {
    if cluster != [] {
      var p := ShortStep(options, parsed, cluster[0], argument).value;
      assert parsed.Keys <= p.Keys <= options.Keys by {
        if ShortTaken(options, cluster[0]) {
          var key :| OwnsShort(options, key, cluster[0]);
          assert p == OwnerStep(options[key], parsed, cluster[0], argument).value;
        }
      }
      ClusterKeepsKeys(options, p, cluster[1..], argument);
    }
  }

  /** A token that does not start with '-' stops the parse with "unrecognized option format",
      whatever the state and whatever follows. */
  lemma BareTokenFails(st: State, tokens: seq<string>, toDouble: string -> Option<real>)
    requires tokens != [] && !StartsWith(tokens[0], "-")
    ensures Step(st, tokens, toDouble) == Failure(UnrecognizedOptionFormat(tokens[0]))
  {
  }

  /** One character, one call: the stacking loop on a one-character name does what the direct
      call of line 256 does. */
  lemma ClusterOfOne(options: Registry, parsed: Store, c: char, argument: string)
    ensures Cluster(options, parsed, [c], argument) == ShortStep(options, parsed, c, argument)
  {
    assert [c][1..] == [];
  }

  /** One token keeps the state invariant and only extends the state. */
  lemma StepKeepsConsistent(st: State, tokens: seq<string>, toDouble: string -> Option<real>)
    requires Consistent(st) && tokens != []
    requires Step(st, tokens, toDouble).Success?
    ensures Consistent(Step(st, tokens, toDouble).value.state)
    ensures Extends(st, Step(st, tokens, toDouble).value.state)
  {
    var token := tokens[0];
    var body := if StartsWith(token, "--") then token[2..] else token[1..];
    var res := Resolve(st.options, body, tokens[1..]);
    if res.options != st.options {
      SubscriptKeepsConsistent(st, body);
    }
    assert Consistent(State(res.options, st.parsed));
    if !StartsWith(token, "--") {
      if |res.name| == 1 {
        ClusterOfOne(res.options, st.parsed, res.name[0], res.argument);
        assert res.name == [res.name[0]];
      }
      ClusterKeepsKeys(res.options, st.parsed, res.name, res.argument);
    }
  }

  /** A whole parse keeps the state invariant and only extends the state. */
  lemma {:induction false} RunKeepsConsistent(st: State, tokens: seq<string>, toDouble: string -> Option<real>)
    requires Consistent(st)
    requires Run(st, tokens, toDouble).Success?
    ensures Consistent(Run(st, tokens, toDouble).value)
    ensures Extends(st, Run(st, tokens, toDouble).value)
    decreases |tokens|
  {
    if tokens != [] {
      var progress := Step(st, tokens, toDouble).value;
      StepKeepsConsistent(st, tokens, toDouble);
      RunKeepsConsistent(progress.state, tokens[progress.consumed..], toDouble);
    }
  }

  /** The first '=' of `a + "=" + b` is the one after `a` when `a` has none. */
  lemma {:induction false} FindAfterPrefix(a: string, b: string)
    requires '=' !in a
    ensures Find(a + "=" + b, '=') == Some(|a|)
    decreases |a|
  {
    var s := a + "=" + b;
    if a != [] {
      assert s[1..] == a[1..] + "=" + b;
      FindAfterPrefix(a[1..], b);
    }
  }

  /** Splitting at the first '=' is unique. */
  lemma SplitIsUnique(a: string, b: string, c: string, d: string)
    requires a + "=" + b == c + "=" + d
    requires '=' !in a && '=' !in c
    ensures a == c && b == d
  {
    var s := a + "=" + b;
    FindAfterPrefix(a, b);
    FindAfterPrefix(c, d);
    assert a == s[..|a|] == c;
    assert b == s[|a| + 1..] == d;
  }

  /** `--name=value` and `--name value` (two tokens) do the same thing to an option that requires
      an argument, and the parse goes on with the same tokens. */
  lemma EqualsFormMatchesNextToken(st: State, name: string, value: string, rest: seq<string>,
                                   toDouble: string -> Option<real>)
    requires name in st.options && st.options[name].requiresArgument && '=' !in name
    ensures Run(st, ["--" + name + "=" + value] + rest, toDouble) == Run(st, ["--" + name, value] + rest, toDouble)
  {
    var attached := ["--" + name + "=" + value] + rest;
    var separate := ["--" + name, value] + rest;
    assert StartsWith(attached[0], "--") && attached[0][2..] == name + "=" + value;
    assert StartsWith(separate[0], "--") && separate[0][2..] == name;
    var r1 := Resolve(st.options, name + "=" + value, attached[1..]);
    var r2 := Resolve(st.options, name, separate[1..]);
    SplitIsUnique(r1.name, r1.argument, name, value);
    assert r2 == Resolved(name, value, st.options, 2);
    assert attached[1..] == separate[2..] == rest;
  }

  /** `--name value` for an option that requires an argument: the value is consumed and
      coerced, and the parse goes on after it. */
  lemma LongOptionTakesNextToken(st: State, name: string, value: string, rest: seq<string>,
                                 toDouble: string -> Option<real>)
    requires name in st.options && st.options[name].requiresArgument && '=' !in name
    ensures Run(st, ["--" + name, value] + rest, toDouble) ==
              match LongStep(st.options, st.parsed, name, value, toDouble)
              case Failure(e) => Failure(e)
              case Success(p) => Run(State(st.options, p), rest, toDouble)
  {
    var tokens := ["--" + name, value] + rest;
    assert StartsWith(tokens[0], "--") && tokens[0][2..] == name;
    assert tokens[1..] == [value] + rest && tokens[2..] == rest;
  }

  /** The text " " stored for every option that owns a character of `cluster`. */
  ghost function Presence(options: Registry, cluster: string): Store {
    map key | key in options && options[key].shortIdentifier.Some? && options[key].shortIdentifier.value in cluster
      :: TextValue(" ")
  }

  lemma PresenceWithOwner(options: Registry, c: char, tail: string, key: string)
    requires WellFormed(options) && OwnsShort(options, key, c)
    ensures Presence(options, [c] + tail) == Presence(options, tail)[key := TextValue(" ")]
  {
    var cluster := [c] + tail;
    assert forall x :: x in cluster <==> x == c || x in tail;
    forall k | k in Presence(options, cluster)
      ensures k in Presence(options, tail) || k == key
    {
      if options[k].shortIdentifier.value == c {
        assert OwnsShort(options, k, c);
      }
    }
    assert Presence(options, cluster).Keys == Presence(options, tail).Keys + {key};
  }

  lemma PresenceWithoutOwner(options: Registry, c: char, tail: string)
    requires !ShortTaken(options, c)
    ensures Presence(options, [c] + tail) == Presence(options, tail)
  {
    var cluster := [c] + tail;
    assert forall x :: x in cluster <==> x == c || x in tail;
    forall key | key in options && options[key].shortIdentifier == Some(c)
      ensures false
    {
      assert OwnsShort(options, key, c);
    }
    assert Presence(options, cluster).Keys == Presence(options, tail).Keys;
  }

  /** A stacked cluster of flags: every option that owns one of its characters gets the text " ",
      characters nobody owns are skipped, and nothing else changes. */
  lemma {:induction false} ClusterOfFlags(options: Registry, parsed: Store, cluster: string, argument: string)
    requires WellFormed(options)
    requires forall key :: (key in options && options[key].shortIdentifier.Some? &&
                            options[key].shortIdentifier.value in cluster) ==> !options[key].requiresArgument
    ensures Cluster(options, parsed, cluster, argument) == Success(parsed + Presence(options, cluster))
    decreases |cluster|
  {
    if cluster == [] {
      assert Presence(options, cluster) == map[];
      assert parsed + map[] == parsed;
    } else {
      var c := cluster[0];
      var tail := cluster[1..];
      assert cluster == [c] + tail;
      assert forall x :: x in tail ==> x in cluster;
      if ShortTaken(options, c) {
        var key :| OwnsShort(options, key, c);
        var stored := parsed[key := TextValue(" ")];
        assert ShortStep(options, parsed, c, argument) == Success(stored);
        ClusterOfFlags(options, stored, tail, argument);
        PresenceWithOwner(options, c, tail, key);
        assert stored + Presence(options, tail) == parsed + Presence(options, tail)[key := TextValue(" ")];
      } else {
        ClusterOfFlags(options, parsed, tail, argument);
        PresenceWithoutOwner(options, c, tail);
      }
    }
  }

  /** The lookahead's insertion adds no owner of a short identifier. */
  lemma PresenceAfterSubscript(options: Registry, name: string, cluster: string)
    ensures Presence(Subscript(options, name), cluster) == Presence(options, cluster)
  {
    var looked := Subscript(options, name);
    assert Presence(looked, cluster).Keys == Presence(options, cluster).Keys;
  }

  /** `-abc` where every owner of a, b and c is a flag (and no long option named "abc" requires
      an argument): one token is used, and each owner gets the text " ". When a token follows,
      the lookahead also leaves an entry named "abc" in the registry. */
  lemma StackedFlagsToken(st: State, cluster: string, rest: seq<string>, toDouble: string -> Option<real>)
    requires Consistent(st)
    requires '=' !in cluster && !StartsWith(cluster, "-")
    requires !(cluster in st.options && st.options[cluster].requiresArgument)
    requires forall key :: (key in st.options && st.options[key].shortIdentifier.Some? &&
                            st.options[key].shortIdentifier.value in cluster) ==> !st.options[key].requiresArgument
    ensures Step(st, ["-" + cluster] + rest, toDouble) ==
              Success(Progress(State(if rest == [] then st.options else Subscript(st.options, cluster),
                                     st.parsed + Presence(st.options, cluster)), 1))
  {
    var tokens := ["-" + cluster] + rest;
    var token := tokens[0];
    if |cluster| > 0 {
      assert cluster[..1] != "-";
    }
    ShortTokenShape(token);
    assert token[1..] == cluster && tokens[1..] == rest;
    var res := Resolve(st.options, cluster, rest);
    if rest != [] {
      SubscriptKeepsConsistent(st, cluster);
      PresenceAfterSubscript(st.options, cluster, cluster);
    }
    ClusterOfFlags(res.options, st.parsed, cluster, "");
    if |cluster| == 1 {
      ClusterOfOne(res.options, st.parsed, cluster[0], "");
      assert cluster == [cluster[0]];
    }
  }

  /** `--name` for an unknown name as the last token: "unknown option". */
  lemma UnknownLongAsLastTokenFails(st: State, name: string, toDouble: string -> Option<real>)
    requires name !in st.options && '=' !in name
    ensures Run(st, ["--" + name], toDouble) == Failure(UnknownOption(name))
  {
    var tokens := ["--" + name];
    assert StartsWith(tokens[0], "--") && tokens[0][2..] == name;
  }

  /** `--name=value` for an unknown name fails wherever it stands: the split skips the lookahead,
      so no entry is inserted and "unknown option" follows. */
  lemma UnknownLongWithValueFails(st: State, name: string, value: string, rest: seq<string>,
                                  toDouble: string -> Option<real>)
    requires name !in st.options && '=' !in name
    ensures Run(st, ["--" + name + "=" + value] + rest, toDouble) == Failure(UnknownOption(name))
  {
    var tokens := ["--" + name + "=" + value] + rest;
    assert StartsWith(tokens[0], "--") && tokens[0][2..] == name + "=" + value;
    var res := Resolve(st.options, name + "=" + value, tokens[1..]);
    SplitIsUnique(res.name, res.argument, name, value);
  }

  /** `--name` for an unknown name before any other token: the lookahead's `m_options[name]`
      registers it as a flag, so it stores true and the parse goes on with the next token. */
  lemma UnknownLongBeforeAnotherTokenIsFlag(st: State, name: string, next: string, rest: seq<string>,
                                            toDouble: string -> Option<real>)
    requires name !in st.options && '=' !in name
    ensures Run(st, ["--" + name, next] + rest, toDouble) ==
              Run(State(st.options[name := DefaultOption], st.parsed[name := BoolValue(true)]), [next] + rest, toDouble)
  {
    var tokens := ["--" + name, next] + rest;
    assert StartsWith(tokens[0], "--") && tokens[0][2..] == name;
    assert tokens[1..] == [next] + rest;
  }

  /** `-c value`: the value is taken only when a LONG option literally named "c" requires an
      argument. Otherwise `-c` gets the empty argument, so when the option owning `c` requires
      one the parse stops with its "requires an argument" error. */
  lemma ShortValueNotConsumed(st: State, c: char, key: string, value: string, rest: seq<string>,
                              toDouble: string -> Option<real>)
    requires Consistent(st)
    requires c != '=' && c != '-'
    requires OwnsShort(st.options, key, c) && st.options[key].requiresArgument
    requires !([c] in st.options && st.options[[c]].requiresArgument)
    ensures Run(st, ["-" + [c], value] + rest, toDouble) == Failure(MissingShortArgument(c))
  {
    var tokens := ["-" + [c], value] + rest;
    assert tokens[0] == ['-', c];
    ShortTokenShape(tokens[0]);
    assert tokens[0][1..] == [c] && tokens[1..] == [value] + rest;
    var looked := Subscript(st.options, [c]);
    SubscriptKeepsConsistent(st, [c]);
    assert OwnsShort(looked, key, c);
    assert [c][0] == c;
  }

  /** `-c=value` for an option that requires an argument stores the raw text, whatever the
      option's declared type: an Int or Bool option reached by its short identifier holds a
      string, not an int or a bool. */
  lemma ShortAttachedValueIsText(st: State, c: char, key: string, value: string, rest: seq<string>,
                                 toDouble: string -> Option<real>)
    requires Consistent(st)
    requires c != '=' && c != '-'
    requires OwnsShort(st.options, key, c) && st.options[key].requiresArgument && value != ""
    ensures Step(st, ["-" + [c] + "=" + value] + rest, toDouble) ==
              Success(Progress(State(st.options, st.parsed[key := TextValue(value)]), 1))
    ensures st.options[key].argumentType != StringView ==>
              st.parsed[key := TextValue(value)][key].Alternative() != st.options[key].argumentType
  {
    var tokens := ["-" + [c] + "=" + value] + rest;
    ShortTokenShape(tokens[0]);
    assert tokens[0][1..] == [c] + "=" + value;
    var res := Resolve(st.options, [c] + "=" + value, rest);
    SplitIsUnique(res.name, res.argument, [c], value);
    assert [c][0] == c;
  }

  /** A short token with an empty cluster (`-`, or `-=` followed by anything) stores nothing. */
  lemma EmptyClusterStoresNothing(st: State, attached: string, rest: seq<string>, toDouble: string -> Option<real>)
    requires Consistent(st)
    ensures Step(st, ["-=" + attached] + rest, toDouble) == Success(Progress(st, 1))
    ensures Step(st, ["-"] + rest, toDouble).Success?
    ensures Step(st, ["-"] + rest, toDouble).value.state.parsed == st.parsed
  {
    var tokens := ["-=" + attached] + rest;
    ShortTokenShape(tokens[0]);
    assert tokens[0][1..] == "=" + attached == "" + "=" + attached;
    var res := Resolve(st.options, "" + "=" + attached, rest);
    SplitIsUnique(res.name, res.argument, "", attached);
    var bare := ["-"] + rest;
    ShortTokenShape(bare[0]);
  }

  /** A long option given twice keeps the value of the later occurrence: the second store
      overwrites the first under the same key. */
  lemma LaterLongStoreWins(options: Registry, parsed: Store, name: string, first: string, second: string,
                           toDouble: string -> Option<real>)
    requires LongStep(options, parsed, name, first, toDouble).Success?
    ensures LongStep(options, LongStep(options, parsed, name, first, toDouble).value, name, second, toDouble) ==
              LongStep(options, parsed, name, second, toDouble)
  {
    var once := LongStep(options, parsed, name, first, toDouble).value;
    assert once == parsed[name := once[name]];
    var twice := LongStep(options, once, name, second, toDouble);
    if twice.Success? {
      assert once[name := twice.value[name]] == parsed[name := twice.value[name]];
    }
  }

  /** What `get_option_value<T>` then finds: after the long path, the stored alternative is the
      declared argument type (bool for a flag); after the short path it is always string_view,
      so asking for the declared type of an Int, Double or Bool option answers none. */
  lemma StoredAlternative(options: Registry, parsed: Store, name: string, argument: string, c: char,
                          toDouble: string -> Option<real>)
    requires WellFormed(options)
    ensures LongStep(options, parsed, name, argument, toDouble).Success? ==>
              LongStep(options, parsed, name, argument, toDouble).value[name].Alternative() ==
                (if options[name].requiresArgument then options[name].argumentType else Bool)
    ensures OwnsShort(options, name, c) && ShortStep(options, parsed, c, argument).Success? ==>
              ShortStep(options, parsed, c, argument).value[name].Alternative() == StringView
  {
  }
}
