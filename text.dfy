/**
 * String operations the library relies on: splitting on a character, joining,
 * the lines a Ruby regular expression anchor `^` sees, leading spaces,
 * `String#strip` and ASCII lower-casing.
 */
module Text {

  /** Number of occurrences of `c` in `s`. */
  function Count(s: string, c: char): nat
  {
    if s == [] then 0 else (if s[0] == c then 1 else 0) + Count(s[1..], c)
  }

  /** `n` space characters. */
  function Spaces(n: nat): (r: string)
    ensures |r| == n && forall i :: 0 <= i < n ==> r[i] == ' '
  {
    seq(n, _ => ' ')
  }

  /**
   * Every field of `s` between occurrences of `c`, empty ones included:
   * one more field than there are separators. This is Ruby's
   * `s.split(c, -1)` except on `""`, which has one empty field here and
   * none in Ruby.
   */
  function Split(s: string, c: char): (r: seq<string>)
    ensures |r| == Count(s, c) + 1
    ensures forall i :: 0 <= i < |r| ==> c !in r[i]
  {
    if s == [] then [[]]
    else
      var rest := Split(s[1..], c);
      if s[0] == c then [[]] + rest
      else [[s[0]] + rest[0]] + rest[1..]
  }

  /** The parts separated by `sep`. */
  function JoinStr(parts: seq<string>, sep: string): string
  {
    if |parts| == 0 then []
    else if |parts| == 1 then parts[0]
    else parts[0] + sep + JoinStr(parts[1..], sep)
  }

  /** Joining the fields of `s` with the separator gives `s` back. */
  lemma {:induction false} JoinSplit(s: string, c: char)
    ensures JoinStr(Split(s, c), [c]) == s
  {
    if s != [] {
      JoinSplit(s[1..], c);
      var rest := Split(s[1..], c);
      if s[0] != c {
        if |rest| == 1 {
          assert Split(s, c) == [[s[0]] + rest[0]];
        } else {
          assert Split(s, c)[1..] == rest[1..];
          assert [s[0]] + JoinStr(rest, [c]) == [s[0]] + rest[0] + [c] + JoinStr(rest[1..], [c]);
        }
      }
    }
  }

  /** A string without the separator is a single field. */
  lemma {:induction false} SplitNoSeparator(s: string, c: char)
    requires c !in s
    ensures Split(s, c) == [s]
  {
    if s != [] {
      SplitNoSeparator(s[1..], c);
      assert [s[0]] + s[1..] == s;
    }
  }

  /** A separator-free prefix is glued onto the first field of what follows it. */
  lemma {:induction false} SplitPrefix(x: string, y: string, c: char)
    requires c !in x
    ensures Split(x + y, c) == [x + Split(y, c)[0]] + Split(y, c)[1..]
  {
    if x != [] {
      assert (x + y)[1..] == x[1..] + y;
      SplitPrefix(x[1..], y, c);
      assert [x[0]] + (x[1..] + Split(y, c)[0]) == x + Split(y, c)[0];
    } else {
      var fields := Split(y, c);
      assert x + y == y && x + fields[0] == fields[0];
      assert [fields[0]] + fields[1..] == fields;
    }
  }

  /** Splitting parts joined by a separator none of them contains gives the parts back. */
  lemma {:induction false} SplitJoin(parts: seq<string>, c: char)
    requires |parts| > 0
    requires forall i :: 0 <= i < |parts| ==> c !in parts[i]
    ensures Split(JoinStr(parts, [c]), c) == parts
  {
    if |parts| == 1 {
      SplitNoSeparator(parts[0], c);
    } else {
      var tail := JoinStr(parts[1..], [c]);
      SplitJoin(parts[1..], c);
      assert JoinStr(parts, [c]) == parts[0] + ([c] + tail);
      SplitPrefix(parts[0], [c] + tail, c);
      assert ([c] + tail)[1..] == tail;
      assert Split([c] + tail, c) == [[]] + parts[1..];
      assert parts[0] + [] == parts[0];
      assert [parts[0]] + parts[1..] == parts;
    }
  }

  /** Ruby's `split(c)`: the fields of `s`, with empty fields at the end dropped (so `""` has none). */
  function SplitOmittingTrailing(s: string, c: char): (r: seq<string>)
    ensures r <= Split(s, c)
    ensures |r| > 0 ==> r[|r| - 1] != []
    ensures forall i :: |r| <= i < |Split(s, c)| ==> Split(s, c)[i] == []
  {
    DropTrailingEmpty(Split(s, c))
  }

  function DropTrailingEmpty(fields: seq<string>): (r: seq<string>)
    ensures r <= fields
    ensures |r| > 0 ==> r[|r| - 1] != []
    ensures forall i :: |r| <= i < |fields| ==> fields[i] == []
  {
    if |fields| == 0 then []
    else if fields[|fields| - 1] == [] then DropTrailingEmpty(fields[..|fields| - 1])
    else fields
  }

  predicate EndsWithNewline(s: string)
  {
    |s| > 0 && s[|s| - 1] == '\n'
  }

  /**
   * The lines of `s` as a Ruby regular expression sees them: a line starts at
   * position 0 and after every "\n" except one that ends the string, and runs
   * to the next "\n" or to the end. `""` has one empty line.
   */
  function Lines(s: string): (r: seq<string>)
    ensures |r| > 0
    ensures forall i :: 0 <= i < |r| ==> '\n' !in r[i]
  {
    if EndsWithNewline(s) then Split(s[..|s| - 1], '\n') else Split(s, '\n')
  }

  /** The lines, rejoined, and the final newline if there was one, give back `s`. */
  lemma LinesJoin(s: string)
    ensures JoinStr(Lines(s), "\n") + (if EndsWithNewline(s) then "\n" else "") == s
  {
    if EndsWithNewline(s) {
      JoinSplit(s[..|s| - 1], '\n');
      assert s[..|s| - 1] + "\n" == s;
    } else {
      JoinSplit(s, '\n');
    }
  }

  /** A string without a newline is one line. */
  lemma LinesOfOneLine(s: string)
    requires '\n' !in s
    ensures Lines(s) == [s]
  {
    SplitNoSeparator(s, '\n');
  }

  /** Number of space characters `s` starts with. */
  function LeadingSpaces(s: string): (r: nat)
    ensures r <= |s|
    ensures s[..r] == Spaces(r)
    ensures r < |s| ==> s[r] != ' '
  {
    if s == [] || s[0] != ' ' then 0 else 1 + LeadingSpaces(s[1..])
  }

  /** Removing `k` of its leading spaces leaves a string with `k` fewer. */
  lemma {:induction false} LeadingSpacesDrop(s: string, k: nat)
    requires k <= LeadingSpaces(s)
    ensures LeadingSpaces(s[k..]) == LeadingSpaces(s) - k
  {
    if k > 0 {
      assert s[k..] == s[1..][k - 1..];
      LeadingSpacesDrop(s[1..], k - 1);
    }
  }

  /** The whitespace `String#strip` removes: NUL, tab, line feed, vertical tab, form feed, carriage return, space. */
  predicate IsWhitespace(ch: char)
  {
    ch == ' ' || ch == '\t' || ch == '\n' || ch == '\U{B}' || ch == '\U{C}' || ch == '\r' || ch == '\0'
  }

  /** `s` without its leading whitespace. */
  function StripLeft(s: string): string
  {
    if |s| > 0 && IsWhitespace(s[0]) then StripLeft(s[1..]) else s
  }

  /** `s` without its trailing whitespace. */
  function StripRight(s: string): string
  {
    if |s| > 0 && IsWhitespace(s[|s| - 1]) then StripRight(s[..|s| - 1]) else s
  }

  /** Ruby's `String#strip`. */
  function Strip(s: string): string
  {
    StripRight(StripLeft(s))
  }

  lemma {:induction false} StripLeftRemovesWhitespace(s: string)
    ensures var r := StripLeft(s);
      && |r| <= |s| && r == s[|s| - |r|..]
      && (forall k :: 0 <= k < |s| - |r| ==> IsWhitespace(s[k]))
      && (|r| > 0 ==> !IsWhitespace(r[0]))
  {
    if |s| > 0 && IsWhitespace(s[0]) {
      StripLeftRemovesWhitespace(s[1..]);
    }
  }

  lemma {:induction false} StripRightRemovesWhitespace(s: string)
    ensures var r := StripRight(s);
      && |r| <= |s| && r == s[..|r|]
      && (forall k :: |r| <= k < |s| ==> IsWhitespace(s[k]))
      && (|r| > 0 ==> !IsWhitespace(r[|r| - 1]))
  {
    if |s| > 0 && IsWhitespace(s[|s| - 1]) {
      StripRightRemovesWhitespace(s[..|s| - 1]);
    }
  }

  /**
   * `strip` keeps a slice `s[i..j]` of its input that neither starts nor
   * ends with whitespace, and removes only whitespace around it.
   */
  lemma StripRemovesWhitespace(s: string)
    ensures exists i, j ::
      && 0 <= i <= j <= |s| && Strip(s) == s[i..j]
      && (forall k :: 0 <= k < i ==> IsWhitespace(s[k]))
      && (forall k :: j <= k < |s| ==> IsWhitespace(s[k]))
    ensures |Strip(s)| > 0 ==> !IsWhitespace(Strip(s)[0]) && !IsWhitespace(Strip(s)[|Strip(s)| - 1])
  {
    var l := StripLeft(s);
    StripLeftRemovesWhitespace(s);
    StripRightRemovesWhitespace(l);
    var i := |s| - |l|;
    var j := i + |StripRight(l)|;
    assert Strip(s) == s[i..j];
    forall k | j <= k < |s| ensures IsWhitespace(s[k]) {
      assert s[k] == l[k - i];
    }
  }

  /** A string that neither starts nor ends with whitespace is its own strip. */
  lemma StripUnchanged(s: string)
    requires |s| > 0 ==> !IsWhitespace(s[0]) && !IsWhitespace(s[|s| - 1])
    ensures Strip(s) == s
  {
  }

  /** One space before or after a word that is already stripped is removed by `strip`. */
  lemma StripPadded(w: string)
    requires |w| > 0 && !IsWhitespace(w[0]) && !IsWhitespace(w[|w| - 1])
    ensures Strip(" " + w) == w && Strip(w + " ") == w
  {
    assert (" " + w)[1..] == w;
    assert StripLeft(" " + w) == StripLeft(w) == w;
    assert StripRight(w) == w;
    assert (w + " ")[..|w|] == w;
    assert StripLeft(w + " ") == w + " ";
    assert StripRight(w + " ") == StripRight(w);
  }

  /** `part` occurs in `whole` starting at index `at`. */
  predicate OccursAt(whole: string, part: string, at: int)
  {
    0 <= at <= |whole| - |part| && whole[at..at + |part|] == part
  }

  function LowerAscii(ch: char): char
  {
    if 'A' <= ch <= 'Z' then (ch as int + 32) as char else ch
  }

  /** ASCII lower-casing, used for case-insensitive comparison. */
  function Downcase(s: string): string
  {
    seq(|s|, i requires 0 <= i < |s| => LowerAscii(s[i]))
  }

  /** A string without upper-case ASCII letters is its own lower case. */
  lemma DowncaseLower(s: string)
    requires forall i :: 0 <= i < |s| ==> !('A' <= s[i] <= 'Z')
    ensures Downcase(s) == s
  {
  }
}
