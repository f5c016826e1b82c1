/**
 * The error formatter of lib/env_bang/formatter.rb: `indent`, `unindent` and
 * the missing-variable message `formatted_error`.
 */
module Formatter {
  import opened Results
  import opened Text

  /** `indent(width, s)`: every "\n" of `s` becomes "\n" followed by `width` spaces. */
  function Indent(width: nat, s: string): string
  {
    if s == [] then []
    else (if s[0] == '\n' then "\n" + Spaces(width) else [s[0]]) + Indent(width, s[1..])
  }

  /** Removes the `width` spaces that follow each "\n" (where there are that many): the inverse of `Indent`. */
  function Outdent(width: nat, t: string): string
  {
    if t == [] then []
    else if t[0] == '\n' && |t| > width && t[1..width + 1] == Spaces(width) then "\n" + Outdent(width, t[width + 1..])
    else [t[0]] + Outdent(width, t[1..])
  }

  /** Indenting grows the string by `width` for each newline and by nothing else. */
  lemma {:induction false} IndentLength(width: nat, s: string)
    ensures |Indent(width, s)| == |s| + width * Count(s, '\n')
  {
    if s != [] {
      IndentLength(width, s[1..]);
      if s[0] == '\n' {
        calc {
          |Indent(width, s)|;
          1 + width + |Indent(width, s[1..])|;
          1 + width + |s[1..]| + width * Count(s[1..], '\n');
          |s| + width * (1 + Count(s[1..], '\n'));
        }
      }
    }
  }

  /** Removing the inserted spaces gives back the original string. */
  lemma {:induction false} OutdentIndent(width: nat, s: string)
    ensures Outdent(width, Indent(width, s)) == s
  {
    if s != [] {
      var rest := Indent(width, s[1..]);
      OutdentIndent(width, s[1..]);
      if s[0] == '\n' {
        var t := "\n" + Spaces(width) + rest;
        assert Indent(width, s) == t;
        assert t[1..width + 1] == Spaces(width);
        assert t[width + 1..] == rest;
        assert "\n" + s[1..] == s;
      } else {
        var t := [s[0]] + rest;
        assert Indent(width, s) == t && t[1..] == rest;
        assert [s[0]] + s[1..] == s;
      }
    }
  }

  /** Indenting works piecewise. */
  lemma {:induction false} IndentAppend(width: nat, a: string, b: string)
    ensures Indent(width, a + b) == Indent(width, a) + Indent(width, b)
  {
    if a == [] {
      assert a + b == b;
    } else {
      assert (a + b)[0] == a[0] && (a + b)[1..] == a[1..] + b;
      IndentAppend(width, a[1..], b);
    }
  }

  /** A string without a newline is left as it is. */
  lemma {:induction false} IndentNoNewline(width: nat, s: string)
    requires '\n' !in s
    ensures Indent(width, s) == s
  {
    if s != [] {
      IndentNoNewline(width, s[1..]);
      assert [s[0]] + s[1..] == s;
    }
  }

  /** Indenting is joining the newline-separated fields with "\n" and `width` spaces. */
  lemma {:induction false} IndentAsJoin(width: nat, s: string)
    ensures Indent(width, s) == JoinStr(Split(s, '\n'), "\n" + Spaces(width))
  {
    if s != [] {
      IndentAsJoin(width, s[1..]);
      var rest := Split(s[1..], '\n');
      var sep := "\n" + Spaces(width);
      if s[0] == '\n' {
        assert Split(s, '\n') == [[]] + rest;
        JoinEmptyFirst(rest, sep);
      } else {
        assert Split(s, '\n') == [[s[0]] + rest[0]] + rest[1..];
        JoinGlue(s[0], rest, sep);
      }
    }
  }

  /** An empty first part contributes only the separator. */
  lemma JoinEmptyFirst(rest: seq<string>, sep: string)
    requires |rest| > 0
    ensures JoinStr([[]] + rest, sep) == sep + JoinStr(rest, sep)
  {
    assert ([[]] + rest)[1..] == rest;
  }

  /** A character glued to the first part comes first in the join. */
  lemma JoinGlue(c: char, rest: seq<string>, sep: string)
    requires |rest| > 0
    ensures JoinStr([[c] + rest[0]] + rest[1..], sep) == [c] + JoinStr(rest, sep)
  {
    var parts := [[c] + rest[0]] + rest[1..];
    if |rest| > 1 {
      assert parts[1..] == rest[1..];
    }
  }

  /** Each part, preceded by `prefix`. */
  function Prefixed(parts: seq<string>, prefix: string): string
  {
    if parts == [] then [] else prefix + parts[0] + Prefixed(parts[1..], prefix)
  }

  lemma {:induction false} PrefixedJoin(parts: seq<string>, sep: string)
    requires |parts| > 0
    ensures sep + JoinStr(parts, sep) == Prefixed(parts, sep)
  {
    if |parts| > 1 {
      PrefixedJoin(parts[1..], sep);
    }
  }

  /** The fewest leading spaces of any of the lines (a position just after a final "\n" is not a line). */
  function MinLeading(lines: seq<string>): (w: nat)
    requires |lines| > 0
    ensures forall i :: 0 <= i < |lines| ==> w <= LeadingSpaces(lines[i])
    ensures exists i :: 0 <= i < |lines| && w == LeadingSpaces(lines[i])
  {
    if |lines| == 1 then LeadingSpaces(lines[0])
    else
      var m := MinLeading(lines[1..]);
      assert forall i :: 1 <= i < |lines| ==> lines[i] == lines[1..][i - 1];
      if LeadingSpaces(lines[0]) <= m then LeadingSpaces(lines[0]) else m
  }

  /** The `width` of `unindent`: the fewest leading spaces over all lines of `s`. */
  function Width(s: string): nat
  {
    MinLeading(Lines(s))
  }

  /** Each line without its first `width` characters. */
  function Dedent(lines: seq<string>, width: nat): (r: seq<string>)
    requires forall i :: 0 <= i < |lines| ==> width <= LeadingSpaces(lines[i])
    ensures |r| == |lines|
  {
    seq(|lines|, i requires 0 <= i < |lines| => assert width <= LeadingSpaces(lines[i]) <= |lines[i]|; lines[i][width..])
  }

  /** `unindent(s)`: removes `Width(s)` spaces from the start of every line. */
  function Unindent(s: string): string
  {
    JoinStr(Dedent(Lines(s), Width(s)), "\n") + (if EndsWithNewline(s) then "\n" else "")
  }

  lemma {:induction false} SplitAppendSeparator(t: string, c: char)
    ensures Split(t + [c], c) == Split(t, c) + [[]]
  {
    if t == [] {
      assert t + [c] == [c];
    } else {
      assert (t + [c])[1..] == t[1..] + [c];
      SplitAppendSeparator(t[1..], c);
    }
  }

  /** Each line starts with `width` spaces, then what `Dedent` keeps of it. */
  lemma DedentLines(lines: seq<string>, width: nat)
    requires forall i :: 0 <= i < |lines| ==> width <= LeadingSpaces(lines[i])
    ensures forall i :: 0 <= i < |lines| ==> lines[i] == Spaces(width) + Dedent(lines, width)[i]
    ensures forall i :: 0 <= i < |lines| ==>
              LeadingSpaces(Dedent(lines, width)[i]) == LeadingSpaces(lines[i]) - width
    ensures forall i :: 0 <= i < |lines| && '\n' !in lines[i] ==> '\n' !in Dedent(lines, width)[i]
  {
    var out := Dedent(lines, width);
    forall i | 0 <= i < |lines|
      ensures lines[i] == Spaces(width) + out[i]
      ensures LeadingSpaces(out[i]) == LeadingSpaces(lines[i]) - width
    {
      assert lines[i][..width] == Spaces(width);
      assert lines[i] == lines[i][..width] + lines[i][width..];
      LeadingSpacesDrop(lines[i], width);
    }
  }

  /** The newline-separated fields of `unindent(s)`: the dedented lines, and an empty field after a final newline. */
  lemma UnindentFields(s: string)
    ensures Split(Unindent(s), '\n') == Dedent(Lines(s), Width(s)) + (if EndsWithNewline(s) then [[]] else [])
  {
    var lines := Lines(s);
    var out := Dedent(lines, Width(s));
    var j := JoinStr(out, "\n");
    DedentLines(lines, Width(s));
    assert forall i :: 0 <= i < |out| ==> '\n' !in out[i];
    SplitJoin(out, '\n');
    assert Split(j, '\n') == out;
    if EndsWithNewline(s) {
      assert Unindent(s) == j + ['\n'];
      SplitAppendSeparator(j, '\n');
    } else {
      assert Unindent(s) == j;
    }
  }

  /**
   * What `unindent` does, line by line: the newline-separated fields of the
   * result are the lines of `s`, each with exactly `Width(s)` spaces removed
   * from its start (plus the empty field after a final newline), so the
   * number of newlines is unchanged, each line loses the same number of
   * leading spaces (relative indentation is kept), and some line is left
   * with no leading space at all.
   */
  lemma UnindentLines(s: string)
    ensures forall i :: 0 <= i < |Lines(s)| ==> Width(s) <= LeadingSpaces(Lines(s)[i])
    ensures Split(Unindent(s), '\n') == Dedent(Lines(s), Width(s)) + (if EndsWithNewline(s) then [[]] else [])
    ensures Count(Unindent(s), '\n') == Count(s, '\n')
    ensures forall i :: 0 <= i < |Lines(s)| ==> Lines(s)[i] == Spaces(Width(s)) + Dedent(Lines(s), Width(s))[i]
    ensures forall i :: 0 <= i < |Lines(s)| ==>
              LeadingSpaces(Dedent(Lines(s), Width(s))[i]) == LeadingSpaces(Lines(s)[i]) - Width(s)
    ensures exists k :: 0 <= k < |Lines(s)| && LeadingSpaces(Dedent(Lines(s), Width(s))[k]) == 0
  {
    DedentLines(Lines(s), Width(s));
    UnindentFields(s);
    SomeLineUnindented(s);
    UnindentCount(s);
  }

  /** The line with the fewest leading spaces is left with none. */
  lemma SomeLineUnindented(s: string)
    ensures exists k :: 0 <= k < |Lines(s)| && LeadingSpaces(Dedent(Lines(s), Width(s))[k]) == 0
  {
    var lines, w := Lines(s), Width(s);
    DedentLines(lines, w);
    var k :| 0 <= k < |lines| && w == LeadingSpaces(lines[k]);
    assert LeadingSpaces(Dedent(lines, w)[k]) == 0;
  }

  /** `unindent` keeps the number of newlines. */
  lemma UnindentCount(s: string)
    ensures Count(Unindent(s), '\n') == Count(s, '\n')
  {
    var lines := Lines(s);
    UnindentFields(s);
    var extra := if EndsWithNewline(s) then 1 else 0;
    assert |Split(Unindent(s), '\n')| == |lines| + extra;
    if EndsWithNewline(s) {
      var body := s[..|s| - 1];
      assert body + ['\n'] == s;
      SplitAppendSeparator(body, '\n');
      assert |Split(s, '\n')| == |lines| + 1;
    } else {
      assert Split(s, '\n') == lines;
    }
  }

  /**
   * The case where `unindent` loses a line: several lines, no final newline,
   * and a last line of exactly `Width(s)` spaces. Dedenting empties that
   * line, so the result ends in a newline instead.
   */
  predicate LastLineVanishes(s: string)
  {
    !EndsWithNewline(s) && |Lines(s)| > 1 && Lines(s)[|Lines(s)| - 1] == Spaces(Width(s))
  }

  /** Some line other than the last has exactly `Width(s)` leading spaces. */
  predicate OtherLineAtWidth(s: string)
  {
    exists k :: 0 <= k < |Lines(s)| - 1 && LeadingSpaces(Lines(s)[k]) == Width(s)
  }

  /**
   * `unindent` is idempotent unless the last line vanishes and no other
   * line had exactly `Width(s)` leading spaces; `UnindentNotIdempotentWhen`
   * shows that it is not idempotent then.
   */
  lemma UnindentIdempotent(s: string)
    requires !LastLineVanishes(s) || OtherLineAtWidth(s)
    ensures Unindent(Unindent(s)) == Unindent(s)
  {
    if LastLineVanishes(s) {
      VanishingIdempotent(s);
      return;
    }
    var lines, w := Lines(s), Width(s);
    var out := Dedent(lines, w);
    var u := Unindent(s);
    DedentLines(lines, w);
    UnindentKeepsLines(s);
    assert Lines(u) == out;
    var k :| 0 <= k < |lines| && w == LeadingSpaces(lines[k]);
    assert LeadingSpaces(out[k]) == 0;
    assert Width(u) == MinLeading(out) == 0;
    DedentNothing(out);
    calc {
      Unindent(u);
      JoinStr(Dedent(out, 0), "\n") + (if EndsWithNewline(u) then "\n" else "");
      JoinStr(out, "\n") + (if EndsWithNewline(s) then "\n" else "");
      u;
    }
  }

  lemma DedentNothing(lines: seq<string>)
    ensures Dedent(lines, 0) == lines
  {
    var r := Dedent(lines, 0);
    forall i | 0 <= i < |lines| ensures r[i] == lines[i] {
      assert lines[i][0..] == lines[i];
    }
  }

  /** Unless the last line vanishes, the lines of `unindent(s)` are the dedented lines of `s`. */
  lemma UnindentKeepsLines(s: string)
    requires !LastLineVanishes(s)
    ensures Lines(Unindent(s)) == Dedent(Lines(s), Width(s))
    ensures EndsWithNewline(Unindent(s)) == EndsWithNewline(s)
  {
    var lines, w := Lines(s), Width(s);
    var out := Dedent(lines, w);
    var j := JoinStr(out, "\n");
    DedentLines(lines, w);
    assert Split(j, '\n') == out by {
      assert forall i :: 0 <= i < |out| ==> '\n' !in out[i];
      SplitJoin(out, '\n');
    }
    if EndsWithNewline(s) {
      var u := j + ['\n'];
      assert Unindent(s) == u;
      assert u[..|u| - 1] == j;
    } else {
      assert Unindent(s) == j;
      DedentedNoFinalNewline(s);
    }
  }

  /** Without a final newline, and unless the last line is only the removed spaces, the dedented lines do not end in one. */
  lemma DedentedNoFinalNewline(s: string)
    requires !EndsWithNewline(s)
    requires |Lines(s)| == 1 || Lines(s)[|Lines(s)| - 1] != Spaces(Width(s))
    ensures !EndsWithNewline(JoinStr(Dedent(Lines(s), Width(s)), "\n"))
  {
    JoinedNoFinalNewline(Lines(s), Width(s));
  }

  /**
   * When the last line vanishes, `unindent(s)` is the other dedented lines,
   * each followed by a newline: one line fewer, and a final newline.
   */
  lemma UnindentDropsLastLine(s: string)
    requires LastLineVanishes(s)
    ensures var out := Dedent(Lines(s), Width(s));
      && Unindent(s) == JoinStr(out[..|out| - 1], "\n") + "\n"
      && Lines(Unindent(s)) == out[..|out| - 1]
      && EndsWithNewline(Unindent(s))
  {
    var lines, w := Lines(s), Width(s);
    var out := Dedent(lines, w);
    var j := JoinStr(out[..|out| - 1], "\n");
    VanishedJoin(lines, w);
    assert Unindent(s) == j + "\n" by {
      assert Unindent(s) == JoinStr(out, "\n") + "";
    }
    LinesOfTerminated(j);
  }

  /**
   * Dedented newline-free lines whose last one was exactly the removed
   * spaces join to the others and a final newline, and those others split
   * back out.
   */
  lemma VanishedJoin(lines: seq<string>, width: nat)
    requires |lines| > 1 && lines[|lines| - 1] == Spaces(width)
    requires forall i :: 0 <= i < |lines| ==> '\n' !in lines[i]
    requires forall i :: 0 <= i < |lines| ==> width <= LeadingSpaces(lines[i])
    ensures var out := Dedent(lines, width);
      && JoinStr(out, "\n") == JoinStr(out[..|out| - 1], "\n") + "\n"
      && Split(JoinStr(out[..|out| - 1], "\n"), '\n') == out[..|out| - 1]
  {
    var out := Dedent(lines, width);
    var head := out[..|out| - 1];
    assert out == head + [[]] by {
      assert out[|out| - 1] == Spaces(width)[width..];
    }
    JoinSnoc(head, [], "\n");
    DedentLines(lines, width);
    SplitJoin(head, '\n');
  }

  /** A string followed by a newline has the lines of the string and a final newline. */
  lemma LinesOfTerminated(j: string)
    ensures Lines(j + "\n") == Split(j, '\n') && EndsWithNewline(j + "\n")
  {
    var u := j + "\n";
    assert u[..|u| - 1] == j;
  }

  /** A string whose width is 0 is left as it is by `unindent`. */
  lemma UnindentWidthZero(t: string)
    requires Width(t) == 0
    ensures Unindent(t) == t
  {
    DedentNothing(Lines(t));
    LinesJoin(t);
  }

  /** When the last line vanishes but another line sets the width, the result is already unindented. */
  lemma VanishingIdempotent(s: string)
    requires LastLineVanishes(s) && OtherLineAtWidth(s)
    ensures Unindent(Unindent(s)) == Unindent(s)
  {
    var lines, w := Lines(s), Width(s);
    var k :| 0 <= k < |lines| - 1 && LeadingSpaces(lines[k]) == w;
    var u := Unindent(s);
    assert Width(u) == 0 by {
      var out := Dedent(lines, w);
      UnindentDropsLastLine(s);
      assert Lines(u)[k] == out[k];
      DedentedAtWidth(lines, w, k);
    }
    UnindentWidthZero(u);
  }

  /** A line with exactly the removed spaces is left with none. */
  lemma DedentedAtWidth(lines: seq<string>, width: nat, k: nat)
    requires forall i :: 0 <= i < |lines| ==> width <= LeadingSpaces(lines[i])
    requires k < |lines| && LeadingSpaces(lines[k]) == width
    ensures LeadingSpaces(Dedent(lines, width)[k]) == 0
  {
    DedentLines(lines, width);
  }

  /**
   * When the last line vanishes and no other line had exactly `Width(s)`
   * leading spaces, every remaining line still starts with a space, so a
   * second `unindent` changes the string.
   */
  lemma UnindentNotIdempotentWhen(s: string)
    requires LastLineVanishes(s) && !OtherLineAtWidth(s)
    ensures Unindent(Unindent(s)) != Unindent(s)
  {
    var lines, w := Lines(s), Width(s);
    var out := Dedent(lines, w);
    var head := out[..|out| - 1];
    var u := Unindent(s);
    DedentLines(lines, w);
    UnindentDropsLastLine(s);
    var w2 := Width(u);
    var j :| 0 <= j < |head| && w2 == LeadingSpaces(head[j]);
    assert head[j] == out[j];
    assert LeadingSpaces(lines[j]) != w;
    assert w2 > 0;
    UnindentKeepsLines(u);
    assert |Lines(Unindent(u))[j]| < |Lines(u)[j]|;
  }

  /**
   * Newline-free lines, dedented and joined, end in a newline only when
   * there are several and the last one was exactly the removed spaces.
   */
  lemma JoinedNoFinalNewline(lines: seq<string>, width: nat)
    requires |lines| > 0 && forall i :: 0 <= i < |lines| ==> '\n' !in lines[i]
    requires forall i :: 0 <= i < |lines| ==> width <= LeadingSpaces(lines[i])
    requires |lines| == 1 || lines[|lines| - 1] != Spaces(width)
    ensures !EndsWithNewline(JoinStr(Dedent(lines, width), "\n"))
  {
    var out := Dedent(lines, width);
    var last := lines[|lines| - 1];
    assert out[|out| - 1] == last[width..];
    if |lines| == 1 && out[0] == [] {
      assert JoinStr(out, "\n") == [];
    } else {
      assert last[..width] == Spaces(width);
      assert last != last[..width];
      assert out[|out| - 1] != [];
      assert '\n' !in out[|out| - 1];
      LastOfJoin(out, "\n");
    }
  }

  /** Joining parts with one more at the end adds the separator and that part. */
  lemma {:induction false} JoinSnoc(parts: seq<string>, x: string, sep: string)
    requires |parts| > 0
    ensures JoinStr(parts + [x], sep) == JoinStr(parts, sep) + sep + x
  {
    if |parts| > 1 {
      assert (parts + [x])[1..] == parts[1..] + [x];
      JoinSnoc(parts[1..], x, sep);
    } else {
      assert (parts + [x])[1..] == [x];
    }
  }

  /** A join of parts whose last one is not empty ends with that part's last character. */
  lemma {:induction false} LastOfJoin(parts: seq<string>, sep: string)
    requires |parts| > 0 && parts[|parts| - 1] != []
    ensures var j := JoinStr(parts, sep); |j| > 0 && j[|j| - 1] == parts[|parts| - 1][|parts[|parts| - 1]| - 1]
  {
    if |parts| > 1 {
      LastOfJoin(parts[1..], sep);
    }
  }

  /** "   a\n  " unindents to " a\n", which unindents further to "a\n". */
  lemma UnindentNotIdempotent()
    ensures Unindent("   a\n  ") == " a\n"
    ensures Unindent(" a\n") == "a\n"
  {
    UnindentFirstExample();
    UnindentSecondExample();
  }

  lemma UnindentFirstExample()
    ensures Unindent("   a\n  ") == " a\n"
  {
    var s := "   a\n  ";
    assert !EndsWithNewline(s);
    assert JoinStr(["   a", "  "], "\n") == s;
    SplitJoin(["   a", "  "], '\n');
    assert LeadingSpaces("   a") == 3 && LeadingSpaces("  ") == 2;
    assert Width(s) == 2;
    assert Dedent(["   a", "  "], 2) == [" a", ""];
    assert JoinStr([" a", ""], "\n") == " a\n";
  }

  lemma UnindentSecondExample()
    ensures Unindent(" a\n") == "a\n"
  {
    var t := " a\n";
    assert EndsWithNewline(t) && t[..|t| - 1] == " a";
    SplitNoSeparator(" a", '\n');
    assert Lines(t) == [" a"];
    assert LeadingSpaces(" a") == 1;
    assert Width(t) == 1;
    assert Dedent([" a"], 1) == ["a"];
  }

  /** The header line of the missing-variable message. */
  function Header(name: string): string
  {
    "Missing required environment variable: " + name
  }

  /** What `formatted_error` puts after the header: nothing, or "\n" and the unindented description. */
  function DescriptionBlock(description: Option<string>): string
  {
    match description
    case None => ""
    case Some(d) => "\n" + Unindent(d)
  }

  /**
   * `formatted_error(var, description)`: a blank line, the header, the
   * unindented description on the lines after it, then a line of eight
   * spaces; everything indented by four.
   */
  function FormattedError(name: string, description: Option<string>): string
  {
    Indent(4, "\n\n" + Header(name) + DescriptionBlock(description) + "\n" + Spaces(8))
  }

  lemma IndentAfterNewline(width: nat, t: string)
    ensures Indent(width, "\n" + t) == "\n" + Spaces(width) + Indent(width, t)
  {
    assert ("\n" + t)[1..] == t;
  }

  /** The trailing line: "\n" and eight spaces, indented, is "\n" and twelve spaces. */
  lemma IndentedLastLine()
    ensures Indent(4, "\n" + Spaces(8)) == "\n" + Spaces(12)
  {
    var eight := Spaces(8);
    assert '\n' !in eight;
    IndentAfterNewline(4, eight);
    IndentNoNewline(4, eight);
    SpacesAdd(4, 8);
  }

  lemma SpacesAdd(a: nat, b: nat)
    ensures Spaces(a) + Spaces(b) == Spaces(a + b)
  {
  }

  /** The header of a name without newlines, then the trailing line, indented. */
  lemma IndentedHeaderLine(name: string)
    requires '\n' !in name
    ensures Indent(4, Header(name) + ("\n" + Spaces(8))) == Header(name) + ("\n" + Spaces(12))
  {
    assert '\n' !in Header(name);
    IndentAppend(4, Header(name), "\n" + Spaces(8));
    IndentNoNewline(4, Header(name));
    IndentedLastLine();
  }

  /** Without a description: an indented blank line, the indented header and a line of twelve spaces. */
  lemma FormattedErrorWithoutDescription(name: string)
    requires '\n' !in name
    ensures FormattedError(name, None) == "\n    \n    " + Header(name) + "\n" + Spaces(12)
  {
    var line := Header(name) + ("\n" + Spaces(8));
    assert FormattedError(name, None) == Indent(4, "\n" + ("\n" + line)) by {
      assert "\n\n" + Header(name) + DescriptionBlock(None) + "\n" + Spaces(8) == "\n" + ("\n" + line);
    }
    IndentAfterNewline(4, "\n" + line);
    IndentAfterNewline(4, line);
    IndentedHeaderLine(name);
    TwoIndentedLines(Header(name));
  }

  lemma TwoIndentedLines(h: string)
    ensures "\n" + Spaces(4) + ("\n" + Spaces(4) + (h + ("\n" + Spaces(12)))) == "\n    \n    " + h + "\n" + Spaces(12)
  {
    assert Spaces(4) == "    ";
  }

  /** `formatted_error` with a description splits into the indented header and the indented description block. */
  lemma FormattedErrorParts(name: string, description: string)
    ensures FormattedError(name, Some(description))
         == Indent(4, "\n\n" + Header(name)) + Indent(4, ("\n" + Unindent(description)) + ("\n" + Spaces(8)))
  {
    var head := "\n\n" + Header(name);
    var block := DescriptionBlock(Some(description));
    assert block == "\n" + Unindent(description);
    Regroup(head, block, "\n", Spaces(8));
    IndentAppend(4, head, block + ("\n" + Spaces(8)));
  }

  lemma Regroup(a: string, b: string, c: string, d: string)
    ensures a + b + c + d == a + (b + (c + d))
  {
  }

  /** The description block, indented: each field after "\n" and four spaces, then "\n" and twelve spaces. */
  lemma IndentedDescription(u: string)
    ensures Indent(4, ("\n" + u) + ("\n" + Spaces(8)))
         == Prefixed(Split(u, '\n'), "\n" + Spaces(4)) + ("\n" + Spaces(12))
  {
    IndentAppend(4, "\n" + u, "\n" + Spaces(8));
    IndentAfterNewline(4, u);
    IndentedLastLine();
    IndentAsJoin(4, u);
    PrefixedJoin(Split(u, '\n'), "\n" + Spaces(4));
  }

  /**
   * With a description: the indented header, then every newline-separated
   * field of `unindent(description)` on a line of its own after "\n" and
   * four spaces, then a line of twelve spaces.
   */
  lemma FormattedErrorWithDescription(name: string, description: string)
    ensures FormattedError(name, Some(description))
         == Indent(4, "\n\n" + Header(name))
          + Prefixed(Split(Unindent(description), '\n'), "\n" + Spaces(4))
          + "\n" + Spaces(12)
  {
    var u := Unindent(description);
    var p := Prefixed(Split(u, '\n'), "\n" + Spaces(4));
    FormattedErrorParts(name, description);
    IndentedDescription(u);
    Regroup(Indent(4, "\n\n" + Header(name)), p, "\n", Spaces(12));
  }
}
