/**
 Documents as lists of lines and as one flat text: lines joined by newlines, with a
 cursor at an offset.
 */
module FlatText {
  /** Lines never contain the characters that end a line or a string. */
  predicate IsLine(s: string) {
    forall i :: 0 <= i < |s| ==> s[i] != '\n' && s[i] != '\0'
  }

  function Join(lines: seq<string>): (text: string)
    requires |lines| > 0
  {
    if |lines| == 1 then lines[0] else lines[0] + "\n" + Join(lines[1..])
  }

  /** Characters in the lines before `line`, with their newlines. */
  function LengthBefore(lines: seq<string>, line: nat): (n: nat)
    requires line <= |lines|
  {
    if line == 0 then 0 else LengthBefore(lines, line - 1) + |lines[line - 1]| + 1
  }

  function Offset(lines: seq<string>, line: nat, column: nat): (n: nat)
    requires line < |lines|
  {
    LengthBefore(lines, line) + column
  }

  /** Joining two documents puts a newline between them. */
  lemma {:induction false} JoinConcat(a: seq<string>, b: seq<string>)
    requires |a| > 0 && |b| > 0
    ensures Join(a + b) == Join(a) + "\n" + Join(b)
  {
    if |a| == 1 {
      assert (a + b)[1..] == b;
    } else {
      assert (a + b)[1..] == a[1..] + b;
      JoinConcat(a[1..], b);
    }
  }

  /** Cutting a line in two does not change the text. */
  lemma {:induction false} JoinCut(pre: seq<string>, a: string, b: string, post: seq<string>)
    ensures Join(pre + [a + b] + post) == Join(pre + [a]) + Join([b] + post)
  {
    if pre == [] {
      assert pre + [a + b] + post == [a + b] + post && pre + [a] == [a];
      if post != [] {
        JoinConcat([a + b], post);
        JoinConcat([b], post);
      } else {
        assert [a + b] + post == [a + b] && [b] + post == [b];
      }
    } else {
      JoinCut(pre[1..], a, b, post);
      assert pre == [pre[0]] + pre[1..];
      assert pre + [a + b] + post == [pre[0]] + (pre[1..] + [a + b] + post);
      assert pre + [a] == [pre[0]] + (pre[1..] + [a]);
      JoinConcat([pre[0]], pre[1..] + [a + b] + post);
      JoinConcat([pre[0]], pre[1..] + [a]);
    }
  }

  lemma {:induction false} JoinLength(lines: seq<string>, s: string)
    ensures |Join(lines + [s])| == LengthBefore(lines, |lines|) + |s|
    decreases |lines|
  {
    if lines == [] {
      assert lines + [s] == [s];
    } else {
      var n := |lines| - 1;
      JoinConcat(lines, [s]);
      assert lines == lines[..n] + [lines[n]];
      JoinLength(lines[..n], lines[n]);
      LengthBeforePrefix(lines, n);
    }
  }

  lemma {:induction false} LengthBeforePrefix(lines: seq<string>, n: nat)
    requires n <= |lines|
    ensures LengthBefore(lines[..n], n) == LengthBefore(lines, n)
  {
    LengthBeforeFrame(lines[..n], lines, n);
  }

  lemma {:induction false} LengthBeforeFrame(a: seq<string>, b: seq<string>, n: nat)
    requires n <= |a| && n <= |b| && forall i :: 0 <= i < n ==> a[i] == b[i]
    ensures LengthBefore(a, n) == LengthBefore(b, n)
  {
    if n > 0 {
      LengthBeforeFrame(a, b, n - 1);
    }
  }

  /** The text before and after a cursor. */
  function Before(lines: seq<string>, line: nat, column: nat): (s: string)
    requires line < |lines| && column <= |lines[line]|
  {
    Join(lines[..line] + [lines[line][..column]])
  }

  function After(lines: seq<string>, line: nat, column: nat): (s: string)
    requires line < |lines| && column <= |lines[line]|
  {
    Join([lines[line][column..]] + lines[line + 1..])
  }

  /** The cursor splits the text at its offset. */
  lemma TextAtCursor(lines: seq<string>, line: nat, column: nat)
    requires line < |lines| && column <= |lines[line]|
    ensures var text, at := Join(lines), Offset(lines, line, column);
            at <= |text| && text[..at] == Before(lines, line, column) && text[at..] == After(lines, line, column)
  {
    var pre, s, post := lines[..line], lines[line], lines[line + 1..];
    JoinCut(pre, s[..column], s[column..], post);
    assert s == s[..column] + s[column..] && lines == pre + [s] + post;
    JoinLength(pre, s[..column]);
    LengthBeforePrefix(lines, line);
  }

  // Edits on lines and what they do to the text.

  function WithLine(lines: seq<string>, line: nat, s: string): (r: seq<string>)
    requires line < |lines|
  {
    lines[..line] + [s] + lines[line + 1..]
  }

  lemma InsertInLine(lines: seq<string>, line: nat, column: nat, c: char)
    requires line < |lines| && column <= |lines[line]|
    ensures var s := lines[line]; var after := WithLine(lines, line, s[..column] + [c] + s[column..]);
            && Join(after) == Before(lines, line, column) + [c] + After(lines, line, column)
            && Offset(after, line, column + 1) == Offset(lines, line, column) + 1
  {
    var s, pre, post := lines[line], lines[..line], lines[line + 1..];
    var after := WithLine(lines, line, s[..column] + [c] + s[column..]);
    JoinCut(pre, s[..column] + [c], s[column..], post);
    JoinCut(pre, s[..column], [c], []);
    assert pre + [s[..column] + [c]] + [] == pre + [s[..column] + [c]];
    assert [[c]] + [] == [[c]];
    LengthBeforeFrame(after, lines, line);
  }

  lemma DeleteInLine(lines: seq<string>, line: nat, column: nat)
    requires line < |lines| && 0 < column <= |lines[line]|
    ensures var s := lines[line]; var after := WithLine(lines, line, s[..column - 1] + s[column..]);
            && Join(after) == Before(lines, line, column - 1) + After(lines, line, column)
            && Offset(after, line, column - 1) == Offset(lines, line, column) - 1
  {
    var s, pre, post := lines[line], lines[..line], lines[line + 1..];
    JoinCut(pre, s[..column - 1], s[column..], post);
    LengthBeforeFrame(WithLine(lines, line, s[..column - 1] + s[column..]), lines, line);
  }

  function Broken(lines: seq<string>, line: nat, column: nat): (r: seq<string>)
    requires line < |lines| && column <= |lines[line]|
  {
    lines[..line] + [lines[line][..column], lines[line][column..]] + lines[line + 1..]
  }

  lemma BreakLine(lines: seq<string>, line: nat, column: nat)
    requires line < |lines| && column <= |lines[line]|
    ensures var after := Broken(lines, line, column);
            && Join(after) == Before(lines, line, column) + "\n" + After(lines, line, column)
            && line + 1 < |after| && Offset(after, line + 1, 0) == Offset(lines, line, column) + 1
  {
    var s, pre, post := lines[line], lines[..line], lines[line + 1..];
    var after := Broken(lines, line, column);
    assert after == (pre + [s[..column]]) + ([s[column..]] + post);
    JoinConcat(pre + [s[..column]], [s[column..]] + post);
    LengthBeforeFrame(after, lines, line);
  }

  function Merged(lines: seq<string>, line: nat): (r: seq<string>)
    requires 0 < line < |lines|
  {
    lines[..line - 1] + [lines[line - 1] + lines[line]] + lines[line + 1..]
  }

  lemma MergeLines(lines: seq<string>, line: nat)
    requires 0 < line < |lines|
    ensures var after := Merged(lines, line); var n := |lines[line - 1]|;
            && Join(after) == Before(lines, line - 1, n) + After(lines, line, 0)
            && Offset(after, line - 1, n) == Offset(lines, line, 0) - 1 == Offset(lines, line - 1, n)
  {
    var n := |lines[line - 1]|;
    assert lines[line - 1][..n] == lines[line - 1] && lines[line][0..] == lines[line];
    JoinCut(lines[..line - 1], lines[line - 1], lines[line], lines[line + 1..]);
    LengthBeforeFrame(Merged(lines, line), lines, line - 1);
  }

  /** The text determines the lines. */
  lemma {:induction false} JoinInjective(a: seq<string>, b: seq<string>)
    requires |a| > 0 && |b| > 0 && Join(a) == Join(b)
    requires (forall i :: 0 <= i < |a| ==> IsLine(a[i])) && (forall i :: 0 <= i < |b| ==> IsLine(b[i]))
    ensures a == b
  {
    var text := Join(a);
    JoinStart(a);
    JoinStart(b);
    assert a[0] == text[..|a[0]|] && b[0] == text[..|b[0]|];
    assert |a[0]| == |b[0]|;
    if |a| > 1 && |b| > 1 {
      assert Join(a[1..]) == text[|a[0]| + 1..] == Join(b[1..]);
      JoinInjective(a[1..], b[1..]);
      assert a == [a[0]] + a[1..] && b == [b[0]] + b[1..];
    }
  }

  lemma JoinStart(a: seq<string>)
    requires |a| > 0
    ensures a[0] <= Join(a)
    ensures if |a| == 1 then |Join(a)| == |a[0]| else |Join(a)| > |a[0]| && Join(a)[|a[0]|] == '\n'
  {
  }
}
