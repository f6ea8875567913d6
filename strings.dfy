/** The few .NET string operations the header extractor relies on:
    String.Split on line-break characters, String.IsNullOrWhiteSpace,
    an ordinal String.StartsWith and StringBuilder.AppendLine. */
module Strings {

  /** Environment.NewLine, fixed to the Unix value. */
  const NewLine := "\n"

  /** Char.IsWhiteSpace: the Unicode space, line and paragraph separators,
      the controls U+0009 to U+000D, and U+0085 and U+00A0. */
  predicate IsWhiteSpace(c: char) {
    var n := c as int;
    (0x09 <= n <= 0x0D) || n == 0x20 || n == 0x85 || n == 0xA0 || n == 0x1680
    || (0x2000 <= n <= 0x200A) || n == 0x2028 || n == 0x2029 || n == 0x202F
    || n == 0x205F || n == 0x3000
  }

  /** String.IsNullOrWhiteSpace (a null string is never passed here). */
  predicate IsBlank(s: string) {
    forall i :: 0 <= i < |s| ==> IsWhiteSpace(s[i])
  }

  /** String.StartsWith, compared ordinally. */
  predicate StartsWith(s: string, prefix: string) {
    |prefix| <= |s| && s[..|prefix|] == prefix
  }

  /** The two characters the extractor splits on. */
  predicate IsLineBreak(c: char) {
    c == '\r' || c == '\n'
  }

  predicate HasNoLineBreak(s: string) {
    forall i :: 0 <= i < |s| ==> !IsLineBreak(s[i])
  }

  function LineBreakCount(s: string): nat {
    if s == [] then 0 else (if IsLineBreak(s[0]) then 1 else 0) + LineBreakCount(s[1..])
  }

  function WithoutLineBreaks(s: string): string {
    if s == [] then "" else (if IsLineBreak(s[0]) then "" else [s[0]]) + WithoutLineBreaks(s[1..])
  }

  function Concat(pieces: seq<string>): string {
    if pieces == [] then "" else pieces[0] + Concat(pieces[1..])
  }

  /** `s.Split(new char[] { '\r', '\n' })`: every '\r' and every '\n' ends a
      piece on its own, so "\r\n" leaves an empty piece between them. */
  function Split(s: string): (r: seq<string>)
    ensures |r| >= 1
  {
    if s == [] then [""]
    else if IsLineBreak(s[0]) then [""] + Split(s[1..])
    else
      var t := Split(s[1..]);
      [[s[0]] + t[0]] + t[1..]
  }

  /** Split loses nothing but the line breaks: one piece more than there are
      breaks, no piece holds a break, and the pieces put together are the
      text without its breaks. */
  lemma {:induction false} SplitPieces(s: string)
    ensures |Split(s)| == LineBreakCount(s) + 1
    ensures forall i :: 0 <= i < |Split(s)| ==> HasNoLineBreak(Split(s)[i])
    ensures Concat(Split(s)) == WithoutLineBreaks(s)
  {
    if s != [] {
      SplitPieces(s[1..]);
      var t := Split(s[1..]);
      if !IsLineBreak(s[0]) {
        var r := Split(s);
        assert r == [[s[0]] + t[0]] + t[1..];
        forall i | 0 <= i < |r| ensures HasNoLineBreak(r[i]) {
          if i == 0 {
            assert HasNoLineBreak(t[0]);
          } else {
            assert r[i] == t[i];
          }
        }
        assert t == [t[0]] + t[1..];
        assert Concat(t) == t[0] + Concat(t[1..]);
        assert Concat(r) == [s[0]] + t[0] + Concat(t[1..]);
      } else {
        var r := Split(s);
        assert r[1..] == t;
        forall i | 0 <= i < |r| ensures HasNoLineBreak(r[i]) {
          if i > 0 { assert r[i] == t[i - 1]; }
        }
      }
    }
  }

  /** `.Where(line => !string.IsNullOrWhiteSpace(line))`. */
  function NonBlank(lines: seq<string>): seq<string> {
    if lines == [] then []
    else if IsBlank(lines[0]) then NonBlank(lines[1..])
    else [lines[0]] + NonBlank(lines[1..])
  }

  /** The filter keeps lines of the input, only non-blank ones, and comes out
      empty exactly when every line is blank. */
  lemma {:induction false} NonBlankKeeps(lines: seq<string>)
    ensures |NonBlank(lines)| <= |lines|
    ensures forall i :: 0 <= i < |NonBlank(lines)| ==> !IsBlank(NonBlank(lines)[i]) && NonBlank(lines)[i] in lines
    ensures NonBlank(lines) == [] <==> forall i :: 0 <= i < |lines| ==> IsBlank(lines[i])
  {
    if lines != [] {
      NonBlankKeeps(lines[1..]);
      var r, t := NonBlank(lines), NonBlank(lines[1..]);
      forall i | 0 <= i < |r| ensures !IsBlank(r[i]) && r[i] in lines {
        if IsBlank(lines[0]) {
          assert r[i] == t[i];
        } else if i > 0 {
          assert r[i] == t[i - 1];
        }
      }
      if forall i :: 0 <= i < |lines| ==> IsBlank(lines[i]) {
        assert forall i :: 0 <= i < |lines[1..]| ==> IsBlank(lines[1..][i]) by {
          forall i | 0 <= i < |lines[1..]| ensures IsBlank(lines[1..][i]) {
            assert lines[1..][i] == lines[i + 1];
          }
        }
      } else if IsBlank(lines[0]) {
        var k :| 0 <= k < |lines| && !IsBlank(lines[k]);
        assert lines[1..][k - 1] == lines[k];
      }
    }
  }

  /** Each line followed by a terminator, as repeated AppendLine calls
      (or a text file's lines) produce it. */
  function Lines(lines: seq<string>, eol: string): string {
    if lines == [] then "" else Lines(lines[..|lines| - 1], eol) + lines[|lines| - 1] + eol
  }

  /** A line break in the middle of a text splits it into the pieces of the
      two sides. */
  lemma {:induction false} SplitAtLineBreak(a: string, c: char, b: string)
    requires IsLineBreak(c)
    ensures Split(a + [c] + b) == Split(a) + Split(b)
  {
    if a == [] {
      assert a + [c] + b == [c] + b;
      assert ([c] + b)[1..] == b;
    } else {
      assert (a + [c] + b)[1..] == a[1..] + [c] + b;
      SplitAtLineBreak(a[1..], c, b);
    }
  }

  /** A text without line breaks is a single piece. */
  lemma {:induction false} SplitSingleLine(line: string)
    requires HasNoLineBreak(line)
    ensures Split(line) == [line]
  {
    if line != [] {
      assert HasNoLineBreak(line[1..]) by {
        forall i | 0 <= i < |line[1..]| ensures !IsLineBreak(line[1..][i]) {
          assert line[1..][i] == line[i + 1];
        }
      }
      SplitSingleLine(line[1..]);
      assert [line[0]] + line[1..] == line;
    }
  }

  /** The line terminators a text file may use. */
  predicate IsLineTerminator(eol: string) {
    eol == "\n" || eol == "\r\n" || eol == "\r"
  }

  /** A line and its terminator split into the line, an empty piece for the
      '\n' of a "\r\n", and then the pieces of the rest. */
  lemma SplitLine(line: string, eol: string, rest: string)
    requires HasNoLineBreak(line) && IsLineTerminator(eol)
    ensures Split(line + eol + rest) == [line] + (if eol == "\r\n" then [""] else []) + Split(rest)
  {
    SplitSingleLine(line);
    if eol == "\r\n" {
      CrLfLeavesEmptyPiece(line, rest);
    } else {
      assert line + eol + rest == line + [eol[0]] + rest;
      SplitAtLineBreak(line, eol[0], rest);
    }
  }

  /** The pieces of a sequence of terminated lines, followed by more text. */
  lemma {:induction false} SplitLines(lines: seq<string>, eol: string, rest: string)
    requires IsLineTerminator(eol)
    requires forall i :: 0 <= i < |lines| ==> HasNoLineBreak(lines[i])
    ensures NonBlank(Split(Lines(lines, eol) + rest)) == NonBlank(lines) + NonBlank(Split(rest))
  {
    if lines == [] {
      assert Lines(lines, eol) + rest == rest;
    } else {
      var init, last := lines[..|lines| - 1], lines[|lines| - 1];
      SplitLines(init, eol, last + eol + rest);
      SplitLinesStep(init, last, eol, rest);
      assert lines == init + [last];
    }
  }

  /** The step of SplitLines: one more line at the end. */
  lemma SplitLinesStep(init: seq<string>, last: string, eol: string, rest: string)
    requires IsLineTerminator(eol) && HasNoLineBreak(last)
    requires NonBlank(Split(Lines(init, eol) + (last + eol + rest)))
             == NonBlank(init) + NonBlank(Split(last + eol + rest))
    ensures NonBlank(Split(Lines(init + [last], eol) + rest)) == NonBlank(init + [last]) + NonBlank(Split(rest))
  {
    LinesSnoc(init, last, eol, rest);
    SplitLineNonBlank(last, eol, rest);
    NonBlankAppend(init, [last]);
  }

  lemma LinesSnoc(init: seq<string>, last: string, eol: string, rest: string)
    ensures Lines(init + [last], eol) + rest == Lines(init, eol) + (last + eol + rest)
  {
    var lines := init + [last];
    assert lines[..|lines| - 1] == init;
  }

  /** SplitLine, once blank pieces are dropped. */
  lemma SplitLineNonBlank(line: string, eol: string, rest: string)
    requires HasNoLineBreak(line) && IsLineTerminator(eol)
    ensures NonBlank(Split(line + eol + rest)) == NonBlank([line]) + NonBlank(Split(rest))
  {
    var extra: seq<string> := if eol == "\r\n" then [""] else [];
    SplitLine(line, eol, rest);
    assert NonBlank([line] + extra) == NonBlank([line]) by {
      assert NonBlank(extra) == [];
      NonBlankAppend([line], extra);
    }
    NonBlankAppend([line] + extra, Split(rest));
  }

  /** Dropping blank lines distributes over concatenation. */
  lemma {:induction false} NonBlankAppend(a: seq<string>, b: seq<string>)
    ensures NonBlank(a + b) == NonBlank(a) + NonBlank(b)
  {
    if a == [] {
      assert a + b == b;
    } else {
      assert (a + b)[1..] == a[1..] + b;
      NonBlankAppend(a[1..], b);
    }
  }

  /** A "\r\n" pair is two breaks: it leaves an empty piece. */
  lemma CrLfLeavesEmptyPiece(a: string, b: string)
    ensures Split(a + "\r\n" + b) == Split(a) + [""] + Split(b)
  {
    assert a + "\r\n" + b == a + ['\r'] + (['\n'] + b);
    SplitAtLineBreak(a, '\r', ['\n'] + b);
    assert [] + ['\n'] + b == ['\n'] + b;
    SplitAtLineBreak([], '\n', b);
  }

  /** The empty piece of a "\r\n" is dropped with the blank lines, so a
      "\r\n" and a single '\n' leave the same lines. */
  lemma CrLfSameAsLf(a: string, b: string)
    ensures NonBlank(Split(a + "\r\n" + b)) == NonBlank(Split(a + "\n" + b))
  {
    var sa, sb := Split(a), Split(b);
    assert Split(a + "\r\n" + b) == sa + [""] + sb by {
      CrLfLeavesEmptyPiece(a, b);
    }
    assert Split(a + "\n" + b) == sa + sb by {
      assert a + "\n" + b == a + ['\n'] + b;
      SplitAtLineBreak(a, '\n', b);
    }
    assert NonBlank(sa + [""]) == NonBlank(sa) by {
      assert NonBlank([""]) == [];
      NonBlankAppend(sa, [""]);
      assert NonBlank(sa) + [] == NonBlank(sa);
    }
    NonBlankAppend(sa + [""], sb);
    NonBlankAppend(sa, sb);
  }
}
