/**
 * The declaration registry of lib/env_bang.rb: `use` checks a variable
 * against the environment, writes its default or raises `KeyError`, and
 * records the name; `[]` hands back the raw environment string of a
 * declared name and refuses every other name.
 */
module EnvBang {
  import opened Results
  import opened Text
  import opened Formatter

  /** The `:default` key of the options hash: absent, `nil`, or a string. */
  datatype Default = NoDefault | DefaultNil | DefaultStr(value: string)

  /** An argument after the variable name: a String, a Hash (of which only `:default` matters here), or anything else. */
  datatype Arg = StrArg(s: string) | HashArg(default: Default) | OtherArg

  /** What `use` makes of its arguments: the description and the `:default` option. */
  datatype Parsed = Parsed(description: Option<string>, default: Default)

  /**
   * The first argument is the description when it is a String (and is then
   * taken off); the options are the last remaining argument when it is a Hash.
   */
  function ParseArgs(args: seq<Arg>): Parsed
  {
    var description := if |args| > 0 && args[0].StrArg? then Some(args[0].s) else None;
    var rest := if description.Some? then args[1..] else args;
    var default := if |rest| > 0 && rest[|rest| - 1].HashArg? then rest[|rest| - 1].default else NoDefault;
    Parsed(description, default)
  }

  /** The arguments in the form the library documents: an optional description, then an optional options hash. */
  function BuildArgs(description: Option<string>, default: Default): seq<Arg>
  {
    (if description.Some? then [StrArg(description.value)] else [])
      + (if default.NoDefault? then [] else [HashArg(default)])
  }

  /** Parsing the documented form gives back its description and default. */
  lemma ParseBuildArgs(description: Option<string>, default: Default)
    ensures ParseArgs(BuildArgs(description, default)) == Parsed(description, default)
  {
    var args := BuildArgs(description, default);
    if description.Some? {
      assert args[1..] == (if default.NoDefault? then [] else [HashArg(default)]);
    }
  }

  /**
   * A description is present exactly when the first argument is a String;
   * a lone Hash is the options, not a description; a second String or a
   * Hash that is not last is ignored.
   */
  lemma ParseArgsCases(args: seq<Arg>)
    ensures ParseArgs(args).description.Some? <==> |args| > 0 && args[0].StrArg?
    ensures ParseArgs(args).description.Some? ==> ParseArgs(args).description.value == args[0].s
    ensures |args| == 1 && args[0].StrArg? ==> ParseArgs(args).default == NoDefault
    ensures |args| > 0 && !args[0].StrArg? && args[|args| - 1].HashArg?
            ==> ParseArgs(args).default == args[|args| - 1].default
    ensures |args| > 0 && !args[|args| - 1].HashArg? ==> ParseArgs(args).default == NoDefault
  {
  }

  // ---------------------------------------------------------------- messages

  /** "Missing required environment variable: " and the name, then "--" and the description when there is one. */
  function MissingText(name: string, description: Option<string>): string
  {
    Header(name) + (if description.Some? then "--" + description.value else "")
  }

  /** The `KeyError` message of `use`: the text on its own line, every line of it indented by four spaces. */
  function MissingMessage(name: string, description: Option<string>): string
  {
    "\n    " + Indent(4, MissingText(name, description)) + "\n"
  }

  /** The `KeyError` message of `[]` for a name that was never declared. */
  function NotConfiguredMessage(name: string): string
  {
    "ENV_BANG is not configured to use var " + name
  }

  /**
   * The message is the text with four spaces after every newline, framed by
   * "\n    " and "\n": taking the frame off and the spaces out gives the text back.
   */
  lemma MissingMessageText(name: string, description: Option<string>)
    ensures var m := MissingMessage(name, description);
      && |m| == 6 + |MissingText(name, description)| + 4 * Count(MissingText(name, description), '\n')
      && m[..5] == "\n    " && m[|m| - 1] == '\n'
      && Outdent(4, m[5..|m| - 1]) == MissingText(name, description)
  {
    var text := MissingText(name, description);
    var m := MissingMessage(name, description);
    IndentLength(4, text);
    OutdentIndent(4, text);
    assert m[5..|m| - 1] == Indent(4, text);
  }

  /** With a one-line name and description, the message is that line between "\n    " and "\n". */
  lemma MissingMessageOneLine(name: string, description: string)
    requires '\n' !in name && '\n' !in description
    ensures MissingMessage(name, Some(description)) == "\n    " + Header(name) + "--" + description + "\n"
  {
    var text := MissingText(name, Some(description));
    assert text == Header(name) + "--" + description;
    assert '\n' !in Header(name) by {
      assert Header(name) == "Missing required environment variable: " + name;
    }
    IndentNoNewline(4, text);
  }

  /** The description is part of the message, in full. */
  lemma MissingMessageIncludesDescription(name: string, description: string)
    requires '\n' !in description
    ensures var m := MissingMessage(name, Some(description));
      exists i :: OccursAt(m, description, i)
  {
    var head := Header(name) + "--";
    var text := MissingText(name, Some(description));
    assert text == head + description;
    IndentAppend(4, head, description);
    IndentNoNewline(4, description);
    var m := MissingMessage(name, Some(description));
    var i := 5 + |Indent(4, head)|;
    assert m == "\n    " + Indent(4, head) + description + "\n";
    assert m[i..i + |description|] == description;
    assert OccursAt(m, description, i);
  }

  // ---------------------------------------------------------------- the used set

  /** No name occurs twice. */
  predicate NoDuplicates(names: seq<string>)
  {
    forall i, j :: 0 <= i < j < |names| ==> names[i] != names[j]
  }

  /** `Set#<<`: append the name unless it is already there. */
  function Insert(names: seq<string>, name: string): seq<string>
  {
    if name in names then names else names + [name]
  }

  /**
   * Inserting keeps the set a set, in first-insertion order: the old names
   * stay a prefix, the new name is in, nothing else is added, and inserting
   * the same name again changes nothing.
   */
  lemma InsertProperties(names: seq<string>, name: string)
    ensures var r := Insert(names, name);
      && (NoDuplicates(names) ==> NoDuplicates(r))
      && names <= r && name in r
      && (forall x :: x in r <==> x in names || x == name)
      && |r| == |names| + (if name in names then 0 else 1)
      && Insert(r, name) == r
  {
  }

  // ---------------------------------------------------------------- the registry as a value

  /** The process environment and the used set. */
  datatype State = State(env: map<string, string>, used: seq<string>)

  /**
   * `use(var, *args)`: when the name is missing from the environment, write
   * the default (a `nil` default deletes, which leaves a missing name
   * missing) or raise `KeyError`; then insert the name into the used set,
   * which is also what `use` returns.
   */
  function UseStep(st: State, name: string, args: seq<Arg>): (State, Result<seq<string>, string>)
  {
    var parsed := ParseArgs(args);
    if name !in st.env && parsed.default.NoDefault? then
      (st, Err(MissingMessage(name, parsed.description)))
    else
      var env := if name !in st.env && parsed.default.DefaultStr? then st.env[name := parsed.default.value] else st.env;
      var used := Insert(st.used, name);
      (State(env, used), Ok(used))
  }

  /** `[]`: the raw environment string of a declared name (`nil` when it is unset), `KeyError` for any other name. */
  function Lookup(st: State, name: string): Result<Option<string>, string>
  {
    if name !in st.used then Err(NotConfiguredMessage(name))
    else if name in st.env then Ok(Some(st.env[name]))
    else Ok(None)
  }

  /** One `use` line of a `config` block: the name and the arguments after it. */
  datatype Decl = Decl(name: string, args: seq<Arg>)

  /** A `config` block: the `use` lines in order, stopping at the first `KeyError`. */
  function Run(st: State, decls: seq<Decl>): (State, Result<seq<string>, string>)
    decreases |decls|
  {
    if decls == [] then (st, Ok(st.used))
    else
      var (next, r) := UseStep(st, decls[0].name, decls[0].args);
      if r.Err? then (next, r) else Run(next, decls[1..])
  }

  /** `use` of a name the environment has: the environment is untouched, even with a default, and the name is recorded. */
  lemma UsePresent(st: State, name: string, args: seq<Arg>)
    requires name in st.env
    ensures UseStep(st, name, args) == (State(st.env, Insert(st.used, name)), Ok(Insert(st.used, name)))
    ensures Lookup(UseStep(st, name, args).0, name) == Ok(Some(st.env[name]))
  {
    InsertProperties(st.used, name);
  }

  /** `use` of a missing name with a string default: exactly that default is written, and `[]` returns it. */
  lemma UseDefault(st: State, name: string, args: seq<Arg>, value: string)
    requires name !in st.env && ParseArgs(args).default == DefaultStr(value)
    ensures UseStep(st, name, args).0 == State(st.env[name := value], Insert(st.used, name))
    ensures UseStep(st, name, args).1.Ok?
    ensures Lookup(UseStep(st, name, args).0, name) == Ok(Some(value))
  {
    InsertProperties(st.used, name);
  }

  /** `use` of a missing name with a `nil` default: the name is recorded and stays unset, so `[]` returns `nil`. */
  lemma UseDefaultNil(st: State, name: string, args: seq<Arg>)
    requires name !in st.env && ParseArgs(args).default == DefaultNil
    ensures UseStep(st, name, args) == (State(st.env, Insert(st.used, name)), Ok(Insert(st.used, name)))
    ensures Lookup(UseStep(st, name, args).0, name) == Ok(None)
  {
    InsertProperties(st.used, name);
  }

  /** `use` of a missing name without a default raises `KeyError` and changes neither the environment nor the used set. */
  lemma UseMissing(st: State, name: string, args: seq<Arg>)
    requires name !in st.env && ParseArgs(args).default == NoDefault
    ensures UseStep(st, name, args) == (st, Err(MissingMessage(name, ParseArgs(args).description)))
    ensures name !in st.used ==> Lookup(UseStep(st, name, args).0, name).Err?
  {
  }

  /** A second identical `use` after a successful one changes nothing. */
  lemma UseIdempotent(st: State, name: string, args: seq<Arg>)
    requires UseStep(st, name, args).1.Ok?
    ensures UseStep(UseStep(st, name, args).0, name, args) == UseStep(st, name, args)
  {
    InsertProperties(st.used, name);
  }

  /**
   * `[]` of a name never passed to `use` raises, whatever the environment
   * holds; for a declared name it is the current environment entry, as is.
   */
  lemma LookupCases(st: State, name: string)
    ensures Lookup(st, name).Err? <==> name !in st.used
    ensures Lookup(st, name).Err? ==> Lookup(st, name).error == NotConfiguredMessage(name)
    ensures name in st.used && name in st.env ==> Lookup(st, name) == Ok(Some(st.env[name]))
    ensures name in st.used && name !in st.env ==> Lookup(st, name) == Ok(None)
  {
  }

  /** An undeclared name raises whatever the environment holds, even when it holds that name. */
  lemma LookupUndeclared(used: seq<string>, name: string)
    requires name !in used
    ensures forall env :: Lookup(State(env, used), name) == Err(NotConfiguredMessage(name))
  {
  }

  /**
   * What a `config` block does to the registry: the used set stays a set and
   * only grows, at its end; values already in the environment are never
   * overwritten, and only declared names are added to it; when no `KeyError`
   * is raised, every declared name is in the used set.
   */
  lemma {:induction false} RunProperties(st: State, decls: seq<Decl>)
    requires NoDuplicates(st.used)
    decreases |decls|
    ensures var (final, r) := Run(st, decls);
      && NoDuplicates(final.used)
      && st.used <= final.used
      && (forall k :: k in st.env ==> k in final.env && final.env[k] == st.env[k])
      && (forall k :: k in final.env ==> k in st.env || exists i :: 0 <= i < |decls| && decls[i].name == k)
      && (r.Ok? ==> r.value == final.used && forall i :: 0 <= i < |decls| ==> decls[i].name in final.used)
  {
    if decls != [] {
      var (next, r0) := UseStep(st, decls[0].name, decls[0].args);
      InsertProperties(st.used, decls[0].name);
      if r0.Ok? {
        RunProperties(next, decls[1..]);
        var (final, r) := Run(next, decls[1..]);
        assert Run(st, decls) == (final, r);
        forall k | k in final.env
          ensures k in st.env || exists i :: 0 <= i < |decls| && decls[i].name == k
        {
          if k !in st.env && k !in next.env {
            var i :| 0 <= i < |decls[1..]| && decls[1..][i].name == k;
            assert decls[i + 1].name == k;
          }
        }
        if r.Ok? {
          forall i | 0 <= i < |decls| ensures decls[i].name in final.used {
            if i > 0 {
              assert decls[i].name == decls[1..][i - 1].name;
            }
          }
        }
      }
    }
  }

  /** A `config` block that raises leaves a missing, default-less variable behind: its name and description are in the message. */
  lemma {:induction false} RunError(st: State, decls: seq<Decl>)
    requires Run(st, decls).1.Err?
    decreases |decls|
    ensures exists i, before: State ::
      && 0 <= i < |decls|
      && decls[i].name !in before.env && ParseArgs(decls[i].args).default == NoDefault
      && Run(st, decls) == (before, Err(MissingMessage(decls[i].name, ParseArgs(decls[i].args).description)))
  {
    var (next, r0) := UseStep(st, decls[0].name, decls[0].args);
    if r0.Err? {
      assert Run(st, decls) == (st, r0);
    } else {
      RunError(next, decls[1..]);
      var i, before: State :| 0 <= i < |decls[1..]|
        && decls[1..][i].name !in before.env && ParseArgs(decls[1..][i].args).default == NoDefault
        && Run(next, decls[1..]) == (before, Err(MissingMessage(decls[1..][i].name, ParseArgs(decls[1..][i].args).description)));
      assert decls[1..][i] == decls[i + 1];
    }
  }

  // ---------------------------------------------------------------- the registry in place

  /** `ENV_BANG`'s class-level state: the process environment it reads and writes, and `@used_vars`. */
  class Registry {
    var env: map<string, string>
    var usedVars: seq<string>

    predicate Valid()
      reads this
    {
      NoDuplicates(usedVars)
    }

    function Snapshot(): State
      reads this
    {
      State(env, usedVars)
    }

    /** A registry over an environment, with no variable used yet. */
    constructor(environment: map<string, string>)
      ensures Valid() && env == environment && usedVars == []
    {
      env := environment;
      usedVars := [];
    }

    /** `used_vars`: the declared names, each once, in the order they were first used. */
    function UsedVars(): (r: seq<string>)
      reads this
      requires Valid()
      ensures NoDuplicates(r) && r == Snapshot().used
    {
      usedVars
    }

    /** `use(name, *args)` in place. */
    method Use(name: string, args: seq<Arg>) returns (r: Result<seq<string>, string>)
      requires Valid()
      modifies this
      ensures Valid()
      ensures (Snapshot(), r) == UseStep(old(Snapshot()), name, args)
      ensures r.Err? ==> env == old(env) && usedVars == old(usedVars)
      ensures r.Ok? ==> r.value == usedVars && old(usedVars) <= usedVars && name in usedVars
    {
      var parsed := ParseArgs(args);
      if name !in env {
        match parsed.default
        case NoDefault =>
          r := Err(MissingMessage(name, parsed.description));
          return;
        case DefaultNil =>
        case DefaultStr(value) =>
          env := env[name := value];
      }
      InsertProperties(usedVars, name);
      if name !in usedVars {
        usedVars := usedVars + [name];
      }
      r := Ok(usedVars);
    }

    /** `[](name)`: reads the registry, changes nothing. */
    method Get(name: string) returns (r: Result<Option<string>, string>)
      ensures r.Err? <==> name !in usedVars
      ensures r.Err? ==> r.error == NotConfiguredMessage(name)
      ensures r.Ok? ==> r.value == (if name in env then Some(env[name]) else None)
      ensures r == Lookup(Snapshot(), name)
    {
      if name !in usedVars {
        return Err(NotConfiguredMessage(name));
      }
      if name in env {
        r := Ok(Some(env[name]));
      } else {
        r := Ok(None);
      }
    }

    /** `ENV[name] = value` done by the program around the registry. */
    method SetEnv(name: string, value: string)
      modifies this
      ensures env == old(env)[name := value] && usedVars == old(usedVars)
    {
      env := env[name := value];
    }

    /** `ENV.delete(name)` done by the program around the registry. */
    method DeleteEnv(name: string)
      modifies this
      ensures env == old(env) - {name} && usedVars == old(usedVars)
    {
      env := env - {name};
    }

    /** `config { use ...; use ... }`: the `use` lines in order, stopping at the first `KeyError`. */
    method Config(decls: seq<Decl>) returns (r: Result<seq<string>, string>)
      requires Valid()
      modifies this
      ensures Valid()
      ensures (Snapshot(), r) == Run(old(Snapshot()), decls)
    {
      var i := 0;
      while i < |decls|
        invariant 0 <= i <= |decls|
        invariant Valid()
        invariant Run(old(Snapshot()), decls) == Run(Snapshot(), decls[i..])
      {
        var step := Use(decls[i].name, decls[i].args);
        if step.Err? {
          return step;
        }
        assert decls[i..][1..] == decls[i + 1..];
        i := i + 1;
      }
      r := Ok(usedVars);
    }
  }
}
