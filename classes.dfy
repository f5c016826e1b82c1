/**
 * The type-casting engine of lib/env_bang/classes.rb: `cast` picks a
 * converter by name, from the `:class` option or the settable default class.
 */
module Classes {
  import opened Results
  import opened Text

  /**
   * The converters `cast` can reach: `boolean`, `StringUnlessFalsey`,
   * `Symbol` and `Array` of classes.rb, and Kernel's `String` and `Integer`
   * reached through `method_missing`.
   */
  datatype ClassName = Boolean | StringUnlessFalsey | Str | Sym | Arr | Int

  /** What a converter returns: a boolean, a string, a symbol (by its name), an array or an integer. */
  datatype Value = VBool(b: bool) | VStr(s: string) | VSym(name: string) | VArr(items: seq<Value>) | VInt(i: int)

  /** The option keys the converters read: `:class` and `:of`. */
  datatype Options = Options(cls: Option<ClassName>, of: Option<ClassName>)

  /**
   * A value outside the decimal subset of Kernel's `Integer` that the model
   * covers: one Ruby refuses, or one of the literal forms left out here
   * (Ruby reads "010" as 8).
   */
  datatype CastError = OutsideDecimalSubset(value: string)

  // ---------------------------------------------------------------- boolean

  /** The alternatives of the pattern `^(|0|disabled?|false|no|off)$`. */
  const FalseyWords: set<string> := {"", "0", "disable", "disabled", "false", "no", "off"}

  /** A line the pattern matches, ignoring case. */
  predicate IsFalsey(line: string)
  {
    Downcase(line) in FalseyWords
  }

  /**
   * `boolean(value)`: false exactly when the pattern matches, that is when
   * some line of `value` (the anchors `^` and `$` work per line) is a falsey
   * word in any case.
   */
  function BooleanOf(value: string): bool
  {
    !exists i :: 0 <= i < |Lines(value)| && IsFalsey(Lines(value)[i])
  }

  /** For a value without a newline: false exactly for the falsey words, in any case, and true for everything else. */
  lemma BooleanOfOneLine(value: string)
    requires '\n' !in value
    ensures BooleanOf(value) <==> Downcase(value) !in FalseyWords
  {
    LinesOfOneLine(value);
    assert Lines(value)[0] == value;
  }

  /** A value with several lines is false as soon as one of its lines is falsey. */
  lemma BooleanOfLines(value: string, k: nat)
    requires k < |Lines(value)| && IsFalsey(Lines(value)[k])
    ensures !BooleanOf(value)
  {
  }

  /** A lower-case word without a newline is false exactly when it is one of the falsey words. */
  lemma BooleanOfWord(word: string)
    requires forall i :: 0 <= i < |word| ==> 'a' <= word[i] <= 'z' || '0' <= word[i] <= '9'
    ensures BooleanOf(word) <==> word !in FalseyWords
  {
    BooleanOfOneLine(word);
    DowncaseLower(word);
  }

  /** Values of the library's tests that are true. */
  lemma BooleanTruthyExamples()
    ensures BooleanOf("true") && BooleanOf("yes")
  {
    BooleanOfWord("true");
    BooleanOfWord("yes");
  }

  /** Values of the library's tests that are false, whatever their case. */
  lemma BooleanFalseyExamples()
    ensures !BooleanOf("false") && !BooleanOf("0")
  {
    BooleanOfWord("false");
    BooleanOfWord("0");
  }

  /** Case does not matter. */
  lemma BooleanIgnoresCase()
    ensures !BooleanOf("Off")
  {
    BooleanOfOneLine("Off");
    assert Downcase("Off") == "off";
  }

  /** `StringUnlessFalsey(value)`: false for a falsey value, the value itself otherwise. */
  function StringUnlessFalseyOf(value: string): Value
  {
    if BooleanOf(value) then VStr(value) else VBool(false)
  }

  // ---------------------------------------------------------------- Integer

  predicate IsDigit(ch: char)
  {
    '0' <= ch <= '9'
  }

  /** Decimal digits without a leading zero (a lone "0" is allowed). */
  predicate IsDecimalDigits(ds: string)
  {
    |ds| > 0 && (forall i :: 0 <= i < |ds| ==> IsDigit(ds[i])) && (ds[0] == '0' ==> |ds| == 1)
  }

  function DigitValue(ch: char): nat
    requires IsDigit(ch)
  {
    ch as int - '0' as int
  }

  /** The number the digits spell. */
  function DigitsValue(ds: string): nat
    requires forall i :: 0 <= i < |ds| ==> IsDigit(ds[i])
  {
    if ds == [] then 0 else DigitsValue(ds[..|ds| - 1]) * 10 + DigitValue(ds[|ds| - 1])
  }

  /** Kernel's `Integer` on an optionally negative decimal numeral; `None` for every other string. */
  function ParseDecimal(s: string): Option<int>
  {
    if |s| > 0 && s[0] == '-' && IsDecimalDigits(s[1..]) then Some(0 - DigitsValue(s[1..]))
    else if IsDecimalDigits(s) then Some(DigitsValue(s))
    else None
  }

  function DigitChar(d: nat): char
    requires d < 10
  {
    ('0' as int + d) as char
  }

  /** The decimal numeral of `n`. */
  function ShowNat(n: nat): (r: string)
    ensures IsDecimalDigits(r)
  {
    if n < 10 then [DigitChar(n)] else ShowNat(n / 10) + [DigitChar(n % 10)]
  }

  /** The decimal numeral of `i`, with a minus sign when negative (`Integer#to_s`). */
  function ShowInt(i: int): string
  {
    if i < 0 then "-" + ShowNat(-i) else ShowNat(i)
  }

  lemma {:induction false} DigitsValueShowNat(n: nat)
    ensures DigitsValue(ShowNat(n)) == n
  {
    if n >= 10 {
      DigitsValueShowNat(n / 10);
      var s := ShowNat(n);
      assert s[..|s| - 1] == ShowNat(n / 10);
    }
  }

  lemma {:induction false} DigitsValuePositive(ds: string)
    requires IsDecimalDigits(ds) && ds[0] != '0'
    ensures DigitsValue(ds) >= 1
  {
    if |ds| > 1 {
      DigitsValuePositive(ds[..|ds| - 1]);
    }
  }

  lemma {:induction false} ShowNatDigitsValue(ds: string)
    requires IsDecimalDigits(ds)
    ensures ShowNat(DigitsValue(ds)) == ds
  {
    if |ds| > 1 {
      var front := ds[..|ds| - 1];
      assert IsDecimalDigits(front);
      ShowNatDigitsValue(front);
      DigitsValuePositive(front);
      var n := DigitsValue(ds);
      assert n / 10 == DigitsValue(front) && n % 10 == DigitValue(ds[|ds| - 1]);
      assert front + [ds[|ds| - 1]] == ds;
    }
  }

  /** Reading back the numeral of any integer gives that integer. */
  lemma ParseShowInt(i: int)
    ensures ParseDecimal(ShowInt(i)) == Some(i)
  {
    if i < 0 {
      DigitsValueShowNat(-i);
      assert ShowInt(i)[1..] == ShowNat(-i);
    } else {
      DigitsValueShowNat(i);
    }
  }

  /** A numeral that parses is the canonical numeral of its value ("-0" apart, which is 0). */
  lemma ShowIntParse(s: string, i: int)
    requires ParseDecimal(s) == Some(i) && s != "-0"
    ensures ShowInt(i) == s
  {
    if |s| > 0 && s[0] == '-' && IsDecimalDigits(s[1..]) {
      ShowNatDigitsValue(s[1..]);
      DigitsValuePositive(s[1..]);
      assert "-" + s[1..] == s;
    } else {
      ShowNatDigitsValue(s);
    }
  }

  // ---------------------------------------------------------------- cast

  /** The converter `cast` calls: `options[:class]`, or the default class. */
  function Resolve(options: Options, default: ClassName): ClassName
  {
    options.cls.GetOr(default)
  }

  /** `Array`'s options for its items: `:class` becomes `options[:of]` (or the default class), the rest stays. */
  function ItemOptions(options: Options, default: ClassName): Options
  {
    options.(cls := Some(options.of.GetOr(default)))
  }

  /**
   * The casts the model covers: not an `Array` whose items are themselves
   * cast as `Array`. Such a cast recurses without end as soon as a field
   * strips to a non-empty string (that string splits into itself again); a
   * value made only of commas and whitespace gives empty arrays and returns,
   * but the model leaves that case out as well.
   */
  predicate Terminates(options: Options, default: ClassName)
  {
    Resolve(options, default) == Arr ==> options.of.GetOr(default) != Arr
  }

  /** The converters other than `Array`: `boolean`, `StringUnlessFalsey`, `String`, `Symbol`, `Integer`. */
  function Convert(c: ClassName, value: string): Result<Value, CastError>
    requires c != Arr
  {
    match c
    case Boolean => Ok(VBool(BooleanOf(value)))
    case StringUnlessFalsey => Ok(StringUnlessFalseyOf(value))
    case Str => Ok(VStr(value))
    case Sym => Ok(VSym(value))
    case Int =>
      (match ParseDecimal(value)
       case Some(n) => Ok(VInt(n))
       case None => Err(OutsideDecimalSubset(value)))
  }

  /** `cast(value, options)` with `default` as the default class. */
  function CastWith(default: ClassName, value: string, options: Options): Result<Value, CastError>
    requires Terminates(options, default)
  {
    var c := Resolve(options, default);
    if c == Arr then CastArray(value, options.of.GetOr(default)) else Convert(c, value)
  }

  /**
   * `Array(value, options)`: split on ",", strip each field and cast it with
   * `:class` set to `itemClass` (`options[:of]` or the default class).
   */
  function CastArray(value: string, itemClass: ClassName): Result<Value, CastError>
    requires itemClass != Arr
  {
    match CastEach(itemClass, SplitOmittingTrailing(value, ','))
    case Ok(items) => Ok(VArr(items))
    case Err(e) => Err(e)
  }

  /** The fields, stripped and converted in order; the first failure is the result. */
  function CastEach(itemClass: ClassName, fields: seq<string>): Result<seq<Value>, CastError>
    requires itemClass != Arr
  {
    if fields == [] then Ok([])
    else
      match Convert(itemClass, Strip(fields[0]))
      case Err(e) => Err(e)
      case Ok(v) =>
        match CastEach(itemClass, fields[1..])
        case Err(e) => Err(e)
        case Ok(vs) => Ok([v] + vs)
  }

  /** Converting an item is the recursive `cast` of classes.rb with the item options. */
  lemma ItemCastIsCast(default: ClassName, options: Options, field: string)
    requires Resolve(options, default) == Arr && Terminates(options, default)
    ensures Terminates(ItemOptions(options, default), default)
    ensures Convert(options.of.GetOr(default), field) == CastWith(default, field, ItemOptions(options, default))
  {
  }

  /**
   * Converting every field: it succeeds exactly when every stripped field
   * converts, giving one value per field in order; otherwise the error is
   * that of the first field that fails.
   */
  lemma {:induction false} CastEachFields(itemClass: ClassName, fields: seq<string>)
    requires itemClass != Arr
    ensures var r := CastEach(itemClass, fields);
      && (r.Ok? <==> forall i :: 0 <= i < |fields| ==> Convert(itemClass, Strip(fields[i])).Ok?)
      && (r.Ok? ==>
            && |r.value| == |fields|
            && forall i :: 0 <= i < |fields| ==> r.value[i] == Convert(itemClass, Strip(fields[i])).value)
      && (r.Err? ==>
            exists k :: 0 <= k < |fields|
              && Convert(itemClass, Strip(fields[k])) == Err(r.error)
              && forall i :: 0 <= i < k ==> Convert(itemClass, Strip(fields[i])).Ok?)
  {
    if fields != [] {
      var head := Convert(itemClass, Strip(fields[0]));
      var tail := fields[1..];
      var rest := CastEach(itemClass, tail);
      var r := CastEach(itemClass, fields);
      CastEachFields(itemClass, tail);
      if head.Err? {
        assert r == Err(head.error);
      } else if rest.Err? {
        assert r == Err(rest.error);
        var k :| 0 <= k < |tail|
          && Convert(itemClass, Strip(tail[k])) == Err(rest.error)
          && forall i :: 0 <= i < k ==> Convert(itemClass, Strip(tail[i])).Ok?;
        assert tail[k] == fields[k + 1];
        forall i | 0 <= i < k + 1 ensures Convert(itemClass, Strip(fields[i])).Ok? {
          if i > 0 {
            assert fields[i] == tail[i - 1];
          }
        }
      } else {
        assert r == Ok([head.value] + rest.value);
        forall i | 0 <= i < |fields|
          ensures Convert(itemClass, Strip(fields[i])).Ok?
          ensures r.value[i] == Convert(itemClass, Strip(fields[i])).value
        {
          if i > 0 {
            assert fields[i] == tail[i - 1];
          }
        }
      }
    }
  }

  /**
   * `Array` always gives an array: one item per comma-separated field
   * (trailing empty fields dropped), each the stripped field cast with
   * `:class` set to `:of` or the default class; it fails only when an item does.
   */
  lemma CastArrayItems(default: ClassName, value: string, options: Options)
    requires Resolve(options, default) == Arr && Terminates(options, default)
    ensures var r := CastWith(default, value, options);
      var fields := SplitOmittingTrailing(value, ',');
      var item := ItemOptions(options, default);
      && Terminates(item, default)
      && (r.Ok? <==> forall i :: 0 <= i < |fields| ==> CastWith(default, Strip(fields[i]), item).Ok?)
      && (r.Ok? ==>
            && r.value.VArr? && |r.value.items| == |fields|
            && forall i :: 0 <= i < |fields| ==> r.value.items[i] == CastWith(default, Strip(fields[i]), item).value)
  {
    var fields := SplitOmittingTrailing(value, ',');
    CastEachFields(options.of.GetOr(default), fields);
    forall i | 0 <= i < |fields|
      ensures Convert(options.of.GetOr(default), Strip(fields[i])) == CastWith(default, Strip(fields[i]), ItemOptions(options, default))
    {
      ItemCastIsCast(default, options, Strip(fields[i]));
    }
  }

  /** When every stripped field converts to the matching value, the fields convert to those values. */
  lemma {:induction false} CastEachAll(itemClass: ClassName, fields: seq<string>, values: seq<Value>)
    requires itemClass != Arr && |fields| == |values|
    requires forall i :: 0 <= i < |fields| ==> Convert(itemClass, Strip(fields[i])) == Ok(values[i])
    ensures CastEach(itemClass, fields) == Ok(values)
  {
    if fields != [] {
      assert Convert(itemClass, Strip(fields[0])) == Ok(values[0]);
      forall i | 0 <= i < |fields| - 1 ensures Convert(itemClass, Strip(fields[1..][i])) == Ok(values[1..][i]) {
        assert fields[1..][i] == fields[i + 1];
      }
      CastEachAll(itemClass, fields[1..], values[1..]);
      assert values == [values[0]] + values[1..];
    }
  }

  /** A lower-case word that is not falsey comes back from `StringUnlessFalsey` unchanged, with or without a space around it. */
  lemma PaddedWord(w: string)
    requires |w| > 0 && forall i :: 0 <= i < |w| ==> 'a' <= w[i] <= 'z'
    requires w !in FalseyWords
    ensures Convert(StringUnlessFalsey, Strip(w)) == Ok(VStr(w))
    ensures Convert(StringUnlessFalsey, Strip(" " + w)) == Ok(VStr(w))
    ensures Convert(StringUnlessFalsey, Strip(w + " ")) == Ok(VStr(w))
  {
    StripUnchanged(w);
    StripPadded(w);
    BooleanOfWord(w);
  }

  /** The first two fields of the library's example, as `StringUnlessFalsey` gives them back. */
  lemma ExampleWordsFront()
    ensures Convert(StringUnlessFalsey, Strip("one")) == Ok(VStr("one"))
    ensures Convert(StringUnlessFalsey, Strip("two ")) == Ok(VStr("two"))
  {
    PaddedWord("one");
    PaddedWord("two");
    assert "two" + " " == "two ";
  }

  /** The last two fields of the library's example, as `StringUnlessFalsey` gives them back. */
  lemma ExampleWordsBack()
    ensures Convert(StringUnlessFalsey, Strip(" three")) == Ok(VStr("three"))
    ensures Convert(StringUnlessFalsey, Strip(" four")) == Ok(VStr("four"))
  {
    PaddedWord("three");
    assert " " + "three" == " three";
    PaddedWord("four");
    assert " " + "four" == " four";
  }

  /** The fields of the library's example "one,two , three, four". */
  lemma ExampleFields()
    ensures SplitOmittingTrailing("one,two , three, four", ',') == ["one", "two ", " three", " four"]
  {
    var parts := ["one", "two ", " three", " four"];
    assert JoinStr(parts, ",") == "one,two , three, four";
    SplitJoin(parts, ',');
  }

  /** The fields of the library's example, cast with the default class, in order. */
  lemma ExampleItems()
    ensures CastEach(StringUnlessFalsey, ["one", "two ", " three", " four"])
         == Ok([VStr("one"), VStr("two"), VStr("three"), VStr("four")])
  {
    ExampleWordsFront();
    ExampleWordsBack();
    CastEachAll(StringUnlessFalsey, ["one", "two ", " three", " four"],
                [VStr("one"), VStr("two"), VStr("three"), VStr("four")]);
  }

  /** The library's example: "one,two , three, four" as an `Array` of the default class gives the four stripped words. */
  lemma CastArrayExample()
    ensures CastWith(StringUnlessFalsey, "one,two , three, four", Options(Some(Arr), None))
         == Ok(VArr([VStr("one"), VStr("two"), VStr("three"), VStr("four")]))
  {
    ExampleFields();
    ExampleItems();
  }

  lemma StripNumeral(i: int)
    ensures Strip(ShowInt(i)) == ShowInt(i)
  {
    var s := ShowInt(i);
    var digits := ShowNat(if i < 0 then -i else i);
    assert IsDecimalDigits(digits);
    assert s[|s| - 1] == digits[|digits| - 1];
    StripUnchanged(s);
  }

  /** The numerals of some integers, joined by commas, split back into those numerals. */
  lemma NumeralFields(numerals: seq<string>, ns: seq<int>)
    requires |numerals| == |ns| && forall i :: 0 <= i < |ns| ==> numerals[i] == ShowInt(ns[i])
    ensures SplitOmittingTrailing(JoinStr(numerals, ","), ',') == numerals
  {
    if ns == [] {
      assert JoinStr(numerals, ",") == [];
      assert Split([], ',') == [[]];
    } else {
      forall i | 0 <= i < |ns| ensures ',' !in numerals[i] && numerals[i] != [] {
        assert IsDecimalDigits(ShowNat(if ns[i] < 0 then -ns[i] else ns[i]));
      }
      SplitJoin(numerals, ',');
    }
  }

  /** The numeral of an integer, stripped and cast as `Integer`, gives back that integer. */
  lemma ConvertNumeral(n: int)
    ensures Convert(Int, Strip(ShowInt(n))) == Ok(VInt(n))
  {
    StripNumeral(n);
    ParseShowInt(n);
  }

  /** The numerals of some integers, each stripped and cast as `Integer`, give back those integers. */
  lemma NumeralItems(numerals: seq<string>, ns: seq<int>)
    requires |numerals| == |ns| && forall i :: 0 <= i < |ns| ==> numerals[i] == ShowInt(ns[i])
    ensures CastEach(Int, numerals) == Ok(seq(|ns|, i requires 0 <= i < |ns| => VInt(ns[i])))
  {
    var values := seq(|ns|, i requires 0 <= i < |ns| => VInt(ns[i]));
    forall i | 0 <= i < |ns| ensures Convert(Int, Strip(numerals[i])) == Ok(values[i]) {
      ConvertNumeral(ns[i]);
    }
    CastEachAll(Int, numerals, values);
  }

  /**
   * An `Array` of `Integer` over the numerals of some integers, joined by
   * commas, gives back those integers, in order.
   */
  lemma CastIntegerArray(default: ClassName, ns: seq<int>)
    ensures CastWith(default, JoinStr(seq(|ns|, i requires 0 <= i < |ns| => ShowInt(ns[i])), ","), Options(Some(Arr), Some(Int)))
         == Ok(VArr(seq(|ns|, i requires 0 <= i < |ns| => VInt(ns[i]))))
  {
    var numerals := seq(|ns|, i requires 0 <= i < |ns| => ShowInt(ns[i]));
    NumeralFields(numerals, ns);
    NumeralItems(numerals, ns);
  }

  /** When `:class` is given, the default class does not matter, unless it is `Array` without `:of`. */
  lemma CastIgnoresDefault(d1: ClassName, d2: ClassName, value: string, options: Options)
    requires options.cls.Some? && (options.cls.value == Arr ==> options.of.Some?)
    requires Terminates(options, d1)
    ensures Terminates(options, d2) && CastWith(d1, value, options) == CastWith(d2, value, options)
  {
  }

  /** Without `:class`, `cast` behaves as if `:class` were the default class. */
  lemma CastUsesDefault(default: ClassName, value: string, options: Options)
    requires options.cls.None? && Terminates(options, default)
    ensures CastWith(default, value, options) == CastWith(default, value, options.(cls := Some(default)))
  {
  }

  /** The scalar converters: what `boolean`, `StringUnlessFalsey`, `String`, `Symbol` and `Integer` return. */
  lemma CastScalars(default: ClassName, value: string, of: Option<ClassName>)
    ensures CastWith(default, value, Options(Some(Boolean), of)) == Ok(VBool(BooleanOf(value)))
    ensures CastWith(default, value, Options(Some(StringUnlessFalsey), of))
         == Ok(if BooleanOf(value) then VStr(value) else VBool(false))
    ensures CastWith(default, value, Options(Some(Str), of)) == Ok(VStr(value))
    ensures CastWith(default, value, Options(Some(Sym), of)) == Ok(VSym(value))
    ensures forall n :: CastWith(default, value, Options(Some(Int), of)) == Ok(VInt(n)) <==> ParseDecimal(value) == Some(n)
    ensures CastWith(default, value, Options(Some(Int), of)).Err? <==> ParseDecimal(value).None?
  {
  }

  /**
   * The process-wide default class of `ENV_BANG::Classes`: `:StringUnlessFalsey`
   * until it is set, and again whenever it is set to nil (`@default_class ||=`).
   */
  class Caster {
    var defaultClass: Option<ClassName>

    constructor ()
      ensures defaultClass == None && DefaultClass() == StringUnlessFalsey
    {
      defaultClass := None;
    }

    /** `default_class`. */
    function DefaultClass(): ClassName
      reads this
    {
      defaultClass.GetOr(StringUnlessFalsey)
    }

    /** `default_class=`: replaces the default class; nil brings back `StringUnlessFalsey`. */
    method SetDefaultClass(c: Option<ClassName>)
      modifies this
      ensures defaultClass == c
      ensures DefaultClass() == (if c.Some? then c.value else StringUnlessFalsey)
    {
      defaultClass := c;
    }

    /** `cast(value, options)`: the converter named by `:class`, or by the current default class. */
    function Cast(value: string, options: Options): (r: Result<Value, CastError>)
      reads this
      requires Terminates(options, DefaultClass())
      ensures options.cls.Some? && options.cls.value != Arr ==> r == Convert(options.cls.value, value)
      ensures options.cls == Some(Arr) ==> r == CastArray(value, options.of.GetOr(DefaultClass()))
      ensures options.cls.None? ==> r == CastWith(DefaultClass(), value, options.(cls := Some(DefaultClass())))
    {
      CastWith(DefaultClass(), value, options)
    }
  }
}
