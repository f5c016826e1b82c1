# ENV_BANG in Dafny

A model of the core of ENV_BANG, a Ruby library with which an application
declares the environment variables it needs and then reads them through
`ENV!`. The model covers three pieces:

- **The declaration registry** (`lib/env_bang.rb`), in `env_bang.dfy`.
  - `use(var, *args)` reads an optional description and an optional options hash from its arguments.
  - If the variable is missing from the environment, it writes the `:default` there or raises `KeyError` with an indented message.
  - It then records the name in the used set, a set that keeps insertion order.
  - `[]` raises `KeyError` for a name that was never used. Otherwise it returns the raw environment string.
  - `config` runs a sequence of `use` lines.
  - The registry is the class `EnvBang.Registry`. Its fields are the environment map and the used set. Its methods are proved against the pure functions `UseStep`, `Lookup` and `Run`, and the lemmas state the properties in terms of those functions.
- **The casting engine** (`lib/env_bang/classes.rb`), in `classes.dfy`.
  - `cast` picks a converter from `:class` or from the settable default class.
  - The converters are `boolean`, `StringUnlessFalsey`, `Symbol` and `Array`, plus Kernel's `String` and `Integer`, which are reached through `method_missing`.
  - The converter names form a closed datatype. The default class is a field of the class `Classes.Caster`.
- **The error formatter** (`lib/env_bang/formatter.rb`), in `formatter.dfy`: `indent`, `unindent` and `formatted_error`.

Two more files support these:

- `text.dfy` holds the string operations they rely on: `split`, the lines Ruby's `^` anchor sees, leading spaces, `strip` and ASCII lower-casing.
- `results.dfy` holds `Option` and `Result`.

Ruby's `nil` becomes `None`. A raised `KeyError` becomes `Err` carrying the message.

### Where this version differs from the library's later design (the model follows this code)

- **`use` does not call `formatted_error`.** In this version, `use` builds its own message (`lib/env_bang.rb:15-18`). That message is "\n" plus four spaces, then the header and "--description", with every newline followed by four spaces, then "\n". The description is not unindented. `EnvBang.MissingMessage` models this message. `Formatter.FormattedError` models the formatter on its own.
- **`[]` does not cast.** It returns the raw environment string, or `nil` when the variable has been deleted since (`lib/env_bang.rb:29-33`).
- **No eager cast at declaration.** `use` never casts, and no options are recorded.
- **Names are not normalised.**
- **`unindent` counts every line start.** Its width is the minimum over all line starts that `^` matches, empty interior lines included, so an empty interior line makes the width 0 (a line of spaces only counts its spaces). The later design speaks of non-empty lines only.
- **`unindent` is not always idempotent.** Take a string with several lines and no final newline whose last line is exactly `width` spaces. Dedenting empties that line, so the result ends in a newline. If no other line had exactly `width` leading spaces, a second `unindent` removes more. `Formatter.UnindentIdempotent` and `Formatter.UnindentNotIdempotentWhen` together state exactly when it is idempotent.
- **Features of a later version are absent.**
  - `keys`, `values` and `clear_config` exist only in that later version, and so does the associative-collection view.
  - `add_class` is absent, and so are the hash, range, date and regular-expression converters.
  - So is the normalisation of the default before it is written.

## Model

| member | source | states |
|---|---|---|
| `Text.SplitOmittingTrailing` | lib/env_bang/classes.rb:20 | `value.split(',')`: the fields are a prefix of all comma-separated fields; the last kept field is non-empty; only empty fields are dropped (so "" gives no field) |
| `Text.Split` | lib/env_bang/classes.rb:20 | one field more than there are separators, none containing the separator |
| `Text.JoinSplit` | lib/env_bang/classes.rb:20 | joining the fields with the separator gives the string back |
| `Text.SplitJoin` | lib/env_bang/classes.rb:20 | splitting separator-free parts joined by the separator gives the parts back |
| `Text.Lines` | lib/env_bang/formatter.rb:13 | the lines `^` sees are at least one and contain no newline |
| `Text.LinesJoin` | lib/env_bang/formatter.rb:13 | the lines rejoined with "\n", plus the final newline if any, are the string: nothing is lost |
| `Text.LinesOfOneLine` | lib/env_bang/classes.rb:15 | a value without a newline is a single line |
| `Text.LeadingSpaces` | lib/env_bang/formatter.rb:13 | the length of the `/^ */` match: that many spaces start the line and the next character is not a space |
| `Text.Strip` | lib/env_bang/classes.rb:20 | definition of `strip` (whitespace as Ruby defines it, NUL included); its properties are in `StripRemovesWhitespace`, `StripUnchanged` and `StripPadded` |
| `Text.StripRemovesWhitespace` | lib/env_bang/classes.rb:20 | `strip` keeps a slice of the field that neither starts nor ends with whitespace and removes only whitespace around it |
| `Text.StripUnchanged` | lib/env_bang/classes.rb:20 | a field with no whitespace at either end is unchanged by `strip` |
| `Text.StripPadded` | lib/env_bang/classes.rb:20 | one space before or after such a field is removed |
| `Formatter.Indent` | lib/env_bang/formatter.rb:17-19 | definition of `indent`; its properties are in `IndentLength`, `OutdentIndent`, `IndentAppend`, `IndentNoNewline` and `IndentAsJoin` |
| `Formatter.IndentLength` | lib/env_bang/formatter.rb:17-19 | `indent(w, s)` is `w` characters longer per newline and no longer otherwise |
| `Formatter.OutdentIndent` | lib/env_bang/formatter.rb:17-19 | removing the `w` spaces after each newline gives `s` back (the inverse of `indent`) |
| `Formatter.IndentAppend` | lib/env_bang/formatter.rb:17-19 | `indent` works piecewise on a concatenation |
| `Formatter.IndentNoNewline` | lib/env_bang/formatter.rb:17-19 | a string without a newline is left as it is |
| `Formatter.IndentAsJoin` | lib/env_bang/formatter.rb:17-19 | `indent(w, s)` is the newline-separated fields of `s` joined by "\n" and `w` spaces |
| `Formatter.Width` | lib/env_bang/formatter.rb:13 | definition of the `width` of `unindent`: `MinLeading` of the lines `^` sees; its properties are in `MinLeading` and `UnindentLines` |
| `Formatter.MinLeading` | lib/env_bang/formatter.rb:13 | the width is at most every line's leading spaces and equal to some line's |
| `Formatter.Dedent` | lib/env_bang/formatter.rb:14 | one result line per input line |
| `Formatter.DedentLines` | lib/env_bang/formatter.rb:14 | each line is `width` spaces followed by its dedented form, which has `width` fewer leading spaces |
| `Formatter.Unindent` | lib/env_bang/formatter.rb:12-15 | definition of `unindent`; its properties are in `UnindentFields`, `UnindentLines`, `UnindentCount`, `UnindentKeepsLines`, `UnindentDropsLastLine`, `UnindentIdempotent` and `UnindentNotIdempotentWhen` |
| `Formatter.UnindentFields` | lib/env_bang/formatter.rb:12-15 | the newline-separated fields of `unindent(s)` are the dedented lines, plus an empty field after a final newline |
| `Formatter.UnindentLines` | lib/env_bang/formatter.rb:12-15 | the width is at most every line's indentation; the number of newlines is unchanged; every line loses exactly `width` leading spaces (relative indentation is kept); some line is left with none |
| `Formatter.SomeLineUnindented` | lib/env_bang/formatter.rb:13-14 | the least-indented line is left with no leading space |
| `Formatter.UnindentCount` | lib/env_bang/formatter.rb:12-15 | `unindent` keeps the number of newlines, hence of newline-separated fields; the lines `^` sees drop by one when the last line vanishes (`UnindentDropsLastLine`) |
| `Formatter.JoinedNoFinalNewline` | lib/env_bang/formatter.rb:14 | dedented newline-free lines, joined, end in a newline only when there are several and the last was exactly the removed spaces |
| `Formatter.UnindentKeepsLines` | lib/env_bang/formatter.rb:12-15 | unless the last line vanishes (several lines, no final newline, last line exactly `width` spaces), the lines of `unindent(s)` are the dedented lines of `s` and the final newline is kept or absent as in `s` |
| `Formatter.DedentedNoFinalNewline` | lib/env_bang/formatter.rb:12-15 | without a final newline, and unless there are several lines and the last is only the removed spaces, the unindented text does not end in a newline |
| `Formatter.UnindentDropsLastLine` | lib/env_bang/formatter.rb:12-15 | when the last line vanishes, `unindent(s)` is the other dedented lines, one line fewer, and ends in a newline |
| `Formatter.VanishingIdempotent` | lib/env_bang/formatter.rb:12-15 | when the last line vanishes but another line had exactly `width` leading spaces, a second `unindent` changes nothing |
| `Formatter.UnindentIdempotent` | lib/env_bang/formatter.rb:12-15 | unindenting twice is unindenting once, unless the last line vanishes and no other line had exactly `width` leading spaces |
| `Formatter.UnindentNotIdempotentWhen` | lib/env_bang/formatter.rb:12-15 | when the last line vanishes and no other line had exactly `width` leading spaces, a second `unindent` changes the string: the converse of `UnindentIdempotent` |
| `Formatter.UnindentNotIdempotent` | lib/env_bang/formatter.rb:12-15 | "   a\n  " unindents to " a\n", which unindents further to "a\n" |
| `Formatter.FormattedError` | lib/env_bang/formatter.rb:4-10 | definition of `formatted_error`; its shape is in `FormattedErrorWithoutDescription`, `FormattedErrorParts` and `FormattedErrorWithDescription` |
| `Formatter.FormattedErrorWithoutDescription` | lib/env_bang/formatter.rb:4-10 | without a description: "\n", 4 spaces, "\n", 4 spaces, the header with the name, "\n" and 12 spaces |
| `Formatter.FormattedErrorParts` | lib/env_bang/formatter.rb:4-10 | with a description: the indented "\n\n"+header followed by the indented description block |
| `Formatter.IndentedDescription` | lib/env_bang/formatter.rb:7-9 | the indented description block is each field of the unindented description after "\n" and 4 spaces, then "\n" and 12 spaces |
| `Formatter.FormattedErrorWithDescription` | lib/env_bang/formatter.rb:4-10 | with a description: the indented header, then every line of `unindent(description)` after "\n" and 4 spaces, then "\n" and 12 spaces |
| `Classes.BooleanOf` | lib/env_bang/classes.rb:14-16 | definition of `boolean`; its properties are in `BooleanOfOneLine`, `BooleanOfLines`, `BooleanOfWord` and the example lemmas |
| `Classes.BooleanOfOneLine` | lib/env_bang/classes.rb:14-16 | a newline-free value is false exactly when its lower case is one of "", "0", "disable", "disabled", "false", "no", "off" |
| `Classes.BooleanOfLines` | lib/env_bang/classes.rb:14-16 | a multi-line value is false as soon as one line is falsey (the anchors work per line) |
| `Classes.BooleanOfWord` | lib/env_bang/classes.rb:14-16 | a lower-case word is false exactly when it is a falsey word |
| `Classes.BooleanTruthyExamples` | test/env_bang_test.rb:42 | "true" and "yes" are true |
| `Classes.BooleanFalseyExamples` | test/env_bang_test.rb:43 | "false" and "0" are false |
| `Classes.BooleanIgnoresCase` | lib/env_bang/classes.rb:15 | "Off" is false: the match ignores case |
| `Classes.ParseDecimal` | lib/env_bang/classes.rb:31-34 | definition of Kernel's `Integer` on the decimal subset; its properties are in `ParseShowInt` and `ShowIntParse` |
| `Classes.ShowNat` | lib/env_bang/classes.rb:31-34 | the numeral of a natural number is a well-formed decimal numeral (digits, no leading zero) |
| `Classes.DigitsValueShowNat` | lib/env_bang/classes.rb:31-34 | the value of the numeral of `n` is `n` |
| `Classes.DigitsValuePositive` | lib/env_bang/classes.rb:31-34 | a numeral not starting with 0 has a positive value |
| `Classes.ShowNatDigitsValue` | lib/env_bang/classes.rb:31-34 | a well-formed numeral is the numeral of its value |
| `Classes.ParseShowInt` | lib/env_bang/classes.rb:31-34 | `Integer(i.to_s) == i` for every integer |
| `Classes.ShowIntParse` | lib/env_bang/classes.rb:31-34 | every decimal string `Integer` accepts, "-0" apart, is `to_s` of the result |
| `Classes.StringUnlessFalseyOf` | lib/env_bang/classes.rb:27-29 | definition of `StringUnlessFalsey`: false for a falsey value, the value otherwise; its properties are in `PaddedWord` and `CastScalars` |
| `Classes.Convert` | lib/env_bang/classes.rb:11-34 | definition of the converters other than `Array`; their results are in `CastScalars` |
| `Classes.CastWith` | lib/env_bang/classes.rb:10-12 | definition of `cast` with a given default class; its properties are in `CastIgnoresDefault`, `CastUsesDefault` and `ItemCastIsCast` |
| `Classes.CastArray` | lib/env_bang/classes.rb:18-21 | definition of `Array`; its properties are in `CastArrayItems`, `CastArrayExample` and `CastIntegerArray` |
| `Classes.CastEach` | lib/env_bang/classes.rb:20 | definition of the `map` over the stripped fields, stopping at the first error; its properties are in `CastEachFields` and `CastEachAll` |
| `Classes.ItemCastIsCast` | lib/env_bang/classes.rb:19-20 | converting an item is the recursive `cast` with `:class` replaced by `:of` or the default class |
| `Classes.CastEachFields` | lib/env_bang/classes.rb:20 | the items convert exactly when every stripped field converts, one value per field in order; otherwise the error is that of the first failing field |
| `Classes.CastEachAll` | lib/env_bang/classes.rb:20 | when every stripped field converts to the matching value, the items are exactly those values |
| `Classes.CastArrayItems` | lib/env_bang/classes.rb:18-21 | `Array` always returns an array with one item per comma field (trailing empty fields dropped), each the cast of the stripped field with the item options |
| `Classes.PaddedWord` | lib/env_bang/classes.rb:27-29 | a lower-case word that is not falsey is returned by `StringUnlessFalsey` unchanged, with or without a space around it |
| `Classes.ExampleWordsFront` | test/env_bang_test.rb:72-75 | "one" and "two " give the strings "one" and "two" |
| `Classes.ExampleWordsBack` | test/env_bang_test.rb:72-75 | " three" and " four" give "three" and "four" |
| `Classes.ExampleFields` | test/env_bang_test.rb:72 | "one,two , three, four" splits into "one", "two ", " three", " four" |
| `Classes.ExampleItems` | test/env_bang_test.rb:72-75 | those fields cast with the default class give the four words |
| `Classes.CastArrayExample` | test/env_bang_test.rb:71-76 | "one,two , three, four" cast as `Array` gives `["one", "two", "three", "four"]` |
| `Classes.StripNumeral` | lib/env_bang/classes.rb:20 | `strip` leaves a numeral unchanged |
| `Classes.ConvertNumeral` | lib/env_bang/classes.rb:20 | the stripped numeral of an integer, cast as `Integer`, is that integer |
| `Classes.NumeralFields` | test/env_bang_test.rb:79 | integers' numerals joined by "," split back into those numerals |
| `Classes.NumeralItems` | lib/env_bang/classes.rb:20 | those numerals cast as `Integer` give the integers, in order |
| `Classes.CastIntegerArray` | test/env_bang_test.rb:78-83 | an `Array` of `Integer` over integers' numerals joined by "," gives those integers in order |
| `Classes.CastIgnoresDefault` | lib/env_bang/classes.rb:11 | when `:class` is given (with `:of` for `Array`), the default class does not matter |
| `Classes.CastUsesDefault` | lib/env_bang/classes.rb:11 | without `:class`, `cast` behaves as if `:class` were the default class |
| `Classes.CastScalars` | lib/env_bang/classes.rb:14-34 | `boolean` gives the truth value; `StringUnlessFalsey` gives false or the value itself; `String` the value; `Symbol` the symbol of that name; `Integer` the number exactly when the value is a decimal numeral, and fails exactly when it is not |
| `Classes.Caster.constructor` | lib/env_bang/classes.rb:6-8 | before it is set, the default class is `StringUnlessFalsey` |
| `Classes.Caster.SetDefaultClass` | lib/env_bang/classes.rb:4-8 | the setter replaces the default class; nil brings back `StringUnlessFalsey` |
| `Classes.Caster.Cast` | lib/env_bang/classes.rb:10-12 | `cast` is the converter `:class` names when that is not `Array`, whatever the default; for `class: Array` it is `Array` with `:of` or else the current default class for the items; when `:class` is absent the current default class decides |
| `EnvBang.ParseArgs` | lib/env_bang.rb:10-11 | definition of the argument parsing of `use`; its properties are in `ParseBuildArgs` and `ParseArgsCases` |
| `EnvBang.ParseBuildArgs` | lib/env_bang.rb:10-11 | an optional description followed by an optional options hash is read back as that description and that default |
| `EnvBang.ParseArgsCases` | lib/env_bang.rb:10-11 | there is a description exactly when the first argument is a String; a lone String is not options; a last Hash is the options; a last non-Hash means no default |
| `EnvBang.MissingMessage` | lib/env_bang.rb:15-18 | definition of the `KeyError` message of `use`; its properties are in `MissingMessageText`, `MissingMessageOneLine` and `MissingMessageIncludesDescription` |
| `EnvBang.MissingMessageText` | lib/env_bang.rb:15-18 | the message is "\n" and 4 spaces, the text with 4 spaces after each newline, then "\n"; removing those spaces gives the text back |
| `EnvBang.MissingMessageOneLine` | lib/env_bang.rb:15-18 | with a one-line name and description the message is "\n    Missing required environment variable: NAME--DESCRIPTION\n" |
| `EnvBang.MissingMessageIncludesDescription` | test/wh_env_test.rb:19-28 | a one-line description appears in the message in full |
| `EnvBang.Insert` | lib/env_bang.rb:22 | definition of `used_vars << var`; its properties are in `InsertProperties` |
| `EnvBang.InsertProperties` | lib/env_bang.rb:22 | `<<` keeps the set free of duplicates and in first-insertion order; it adds exactly the name, and a second insertion changes nothing |
| `EnvBang.UseStep` | lib/env_bang.rb:9-23 | definition of `use` on a state value; its cases are in `UsePresent`, `UseDefault`, `UseDefaultNil`, `UseMissing` and `UseIdempotent` |
| `EnvBang.UsePresent` | lib/env_bang.rb:13-22 | a variable already in the environment is left as it is, even with a default, the name is recorded, and `[]` returns the environment's value |
| `EnvBang.UseDefault` | lib/env_bang.rb:13-22 | a missing variable with a string default gets exactly that value, the name is recorded, and `[]` returns the default |
| `EnvBang.UseDefaultNil` | lib/env_bang.rb:13-22 | a missing variable with a `nil` default stays unset, the name is recorded, and `[]` returns nil |
| `EnvBang.UseMissing` | lib/env_bang.rb:13-19 | a missing variable without a default raises `KeyError` with the missing-variable message; neither the environment nor the used set changes |
| `EnvBang.UseIdempotent` | lib/env_bang.rb:13-22 | repeating a successful `use` changes nothing more |
| `EnvBang.Lookup` | lib/env_bang.rb:29-33 | definition of `[]` on a state value; its properties are in `LookupCases` and `LookupUndeclared` |
| `EnvBang.LookupCases` | lib/env_bang.rb:29-33 | `[]` raises exactly for names not in the used set, with "ENV_BANG is not configured to use var NAME"; otherwise it returns the current environment entry as is, or nil |
| `EnvBang.LookupUndeclared` | lib/env_bang.rb:30 | an undeclared name raises whatever the environment holds |
| `EnvBang.Run` | lib/env_bang.rb:5-7 | definition of `config` as a sequence of `use` lines on a state value; its properties are in `RunProperties` and `RunError` |
| `EnvBang.RunProperties` | lib/env_bang.rb:5-23 | a `config` block keeps the used set duplicate-free and only appends to it; it never overwrites an environment value and adds only declared names; if nothing raises, every declared name is in the used set |
| `EnvBang.RunError` | lib/env_bang.rb:5-19 | a `config` block that raises does so for a declared name that was missing and had no default, with that name's message |
| `EnvBang.Registry.constructor` | lib/env_bang.rb:25-27 | the used set starts empty; the environment is the given one |
| `EnvBang.Registry.UsedVars` | lib/env_bang.rb:25-27 | `used_vars` has no duplicates and is the used set, in the order names were first used |
| `EnvBang.Registry.Use` | lib/env_bang.rb:9-23 | the new state and the result are those of `UseStep`; on `KeyError` nothing changes; otherwise the result is the used set, which has grown only by the name |
| `EnvBang.Registry.Get` | lib/env_bang.rb:29-33 | raises exactly for names not in the used set; otherwise returns the current environment entry or nil, which is `Lookup` of the current state; changes nothing |
| `EnvBang.Registry.SetEnv` | test/wh_env_test.rb:5 | an outside `ENV[name] = value` changes that entry only |
| `EnvBang.Registry.DeleteEnv` | test/wh_env_test.rb:10 | an outside `ENV.delete(name)` removes that entry only |
| `EnvBang.Registry.Config` | lib/env_bang.rb:5-7 | running the `use` lines one by one ends in the state and result of `Run`: stop at the first `KeyError` |

## Left out

- `lib/env_bang-rails.rb` (the Rails hook that loads a config file at boot) and `test/test_helper.rb` (coverage set-up) are not part of this model.
- `config`'s `instance_eval` of a block is modelled as a sequence of `use` lines. Other code inside the block is not modelled.
- `method_missing` forwarding to the process `ENV`, and the `ENV!` accessor. They delegate to the real environment, which the model holds as a map field.
- The classes `Float`, `Rational`, `Complex`, and any other class reached through `method_missing` in classes.rb. Only `String`, modelled as the identity, and `Integer` are modelled.
- Kernel's `Integer` is modelled on optionally negative decimal numerals without leading zeros. Any other string is an error in the model, meaning "outside the modelled subset". This covers Ruby's hexadecimal, octal, binary and underscore forms, surrounding whitespace and `+`, which Ruby may accept.
- `cast` with a class name that has no converter (a `NoMethodError` in Ruby), and with `:class` set to nil. The converter names form a closed datatype.
- `cast` of an `Array` whose items are themselves `Array` is excluded (`of: Array`, or an `Array` default class without `:of`), and the model's `Terminates` precondition rules it out. Ruby recurses without end there as soon as some field strips to a non-empty string, since that string splits into itself again. A value made only of commas and whitespace terminates in Ruby, giving `[]` for `""` and `[[], []]` for `" , "`; the model leaves that case out too.
- Case-insensitive matching folds only ASCII letters. Ruby's `/i` also folds non-ASCII letters.
- A default that is not a String or nil (Ruby raises `TypeError` on the environment write). A description that is an empty String still counts as a description, as in Ruby.
- `formatted_error` called with a description of `false` (it would print "false"). The model's description is absent or a string.
- Restrictions the operating system puts on environment names and values (no "=" or NUL characters).
- Ruby returns the live `used_vars` object, so callers could mutate it. The model returns a copy of the sequence.
- An empty `config` block: the model's `Run` gives the used set, where Ruby's `instance_eval` of an empty block returns nil. Nothing reads this value.
- Casting on read (`[]` returning the cast value), `keys`, `values`, `clear_config` and the associative-collection view exist only in a later version. This version of `lib/env_bang.rb` has none of them.
