/**
 Cursor keys seen from the flat text: which line of the text the cursor is on is how many
 newlines come before it, and its column how far back the last of them lies.
 */
module EditorMoves {
  import opened FlatText
  import opened Editor

  function Newlines(s: string): (n: nat) {
    if s == "" then 0 else Newlines(s[..|s| - 1]) + if s[|s| - 1] == '\n' then 1 else 0
  }

  /** The characters since the last newline. */
  function SinceNewline(s: string): (n: nat) {
    if s == "" || s[|s| - 1] == '\n' then 0 else 1 + SinceNewline(s[..|s| - 1])
  }

  /** The characters up to the next newline. */
  function UntilNewline(s: string): (n: nat) {
    if s == "" || s[0] == '\n' then 0 else 1 + UntilNewline(s[1..])
  }

  lemma {:induction false} NewlinesOfConcat(a: string, b: string)
    ensures Newlines(a + b) == Newlines(a) + Newlines(b)
    decreases |b|
  {
    if b == "" {
      assert a + b == a;
    } else {
      NewlinesOfConcat(a, b[..|b| - 1]);
      assert (a + b)[..|a + b| - 1] == a + b[..|b| - 1];
    }
  }

  lemma {:induction false} NewlinesOfLine(s: string)
    requires IsLine(s)
    ensures Newlines(s) == 0
    decreases |s|
  {
    if s != "" {
      NewlinesOfLine(s[..|s| - 1]);
    }
  }

  /** A document has a newline between every two lines. */
  lemma {:induction false} NewlinesOfJoin(lines: seq<string>)
    requires |lines| > 0 && forall i :: 0 <= i < |lines| ==> IsLine(lines[i])
    ensures Newlines(Join(lines)) == |lines| - 1
    decreases |lines|
  {
    NewlinesOfLine(lines[0]);
    if |lines| > 1 {
      NewlinesOfJoin(lines[1..]);
      NewlinesOfConcat(lines[0] + "\n", Join(lines[1..]));
      NewlinesOfConcat(lines[0], "\n");
      assert Newlines("\n") == 1;
    }
  }

  lemma {:induction false} SinceOfConcat(a: string, s: string)
    requires IsLine(s) && (a == "" || a[|a| - 1] == '\n')
    ensures SinceNewline(a + s) == |s|
    decreases |s|
  {
    if s == "" {
      assert a + s == a;
    } else {
      SinceOfConcat(a, s[..|s| - 1]);
      assert (a + s)[..|a + s| - 1] == a + s[..|s| - 1];
    }
  }

  lemma {:induction false} UntilOfConcat(s: string, b: string)
    requires IsLine(s) && (b == "" || b[0] == '\n')
    ensures UntilNewline(s + b) == |s|
    decreases |s|
  {
    if s == "" {
      assert s + b == b;
    } else {
      UntilOfConcat(s[1..], b);
      assert (s + b)[1..] == s[1..] + b;
    }
  }

  /** The last line of a document is what follows its last newline. */
  lemma SinceOfJoin(lines: seq<string>, s: string)
    requires IsLine(s)
    ensures SinceNewline(Join(lines + [s])) == |s|
  {
    if lines == [] {
      assert lines + [s] == [s];
      SinceOfConcat("", s);
      assert "" + s == s;
    } else {
      JoinConcat(lines, [s]);
      SinceOfConcat(Join(lines) + "\n", s);
    }
  }

  lemma UntilOfJoin(s: string, lines: seq<string>)
    requires IsLine(s)
    ensures UntilNewline(Join([s] + lines)) == |s|
  {
    if lines == [] {
      assert [s] + lines == [s];
      UntilOfConcat(s, "");
      assert s + "" == s;
    } else {
      JoinConcat([s], lines);
      UntilOfConcat(s, "\n" + Join(lines));
      assert s + ("\n" + Join(lines)) == s + "\n" + Join(lines);
    }
  }

  /** Line, column and line length of a place, read off the flat text. */
  lemma PlaceOnText(p: Place)
    requires p.Valid()
    ensures var f := p.View();
            && Newlines(f.text[..f.at]) == p.line && Newlines(f.text) == |p.lines| - 1
            && SinceNewline(f.text[..f.at]) == p.column
            && UntilNewline(f.text[f.at..]) == |p.lines[p.line]| - p.column
  {
    hide Join, Newlines, SinceNewline, UntilNewline, LengthBefore;
    var f := p.View();
    var before, s := p.lines[..p.line], p.lines[p.line];
    TextAtCursor(p.lines, p.line, p.column);
    NewlinesOfJoin(p.lines);
    NewlinesOfJoin(before + [s[..p.column]]);
    SinceOfJoin(before, s[..p.column]);
    UntilOfJoin(s[p.column..], p.lines[p.line + 1..]);
  }

  function Minimum(a: nat, b: nat): (m: nat) {
    if a < b then a else b
  }

  /**
   Up and down keep the text, go one newline back or on if there is one, and keep the distance
   to the newline before or stop at the end of a shorter line.
   */
  lemma VerticalKeys(p: Place, c: char)
    requires p.Valid() && (c == UP || c == DOWN)
    ensures Pressed(p, c).Valid()
    ensures var f, g := p.View(), Pressed(p, c).View();
            var n := Newlines(f.text[..f.at]);
            && g.text == f.text
            && (c == UP ==> Newlines(g.text[..g.at]) == if n > 0 then n - 1 else 0)
            && (c == DOWN ==> Newlines(g.text[..g.at]) == if n < Newlines(f.text) then n + 1 else n)
            && SinceNewline(g.text[..g.at])
               == Minimum(SinceNewline(f.text[..f.at]), SinceNewline(g.text[..g.at]) + UntilNewline(g.text[g.at..]))
  {
    hide Newlines, SinceNewline, UntilNewline, FlatOf, Document;
    PressedIsApplied(p, c);
    var q := Pressed(p, c);
    PlaceOnText(p);
    PlaceOnText(q);
    TextOf(p.lines, p.line, p.column);
    TextOf(q.lines, q.line, q.column);
  }

  /** Where there is a line above, up and then down returns to the same line; likewise down and up. */
  lemma VerticalReturn(p: Place, c: char, d: char)
    requires p.Valid() && ((c == UP && d == DOWN && p.line > 0) || (c == DOWN && d == UP && p.line < |p.lines| - 1))
    ensures Pressed(p, c).Valid() && Pressed(p, c).line != p.line
    ensures Pressed(Pressed(p, c), d).line == p.line
  {
    PressedIsApplied(p, c);
  }

  /** Left and right step back and on by one character of the text, as far as it goes. */
  lemma SidewaysKeys(p: Place)
    requires p.Valid()
    ensures Pressed(p, LEFT).Valid() && Pressed(p, RIGHT).Valid()
    ensures var f, l, r := p.View(), Pressed(p, LEFT).View(), Pressed(p, RIGHT).View();
            && l.text == r.text == f.text
            && l.at == (if f.at > 0 then f.at - 1 else 0) && r.at == Minimum(f.at + 1, |f.text|)
  {
    hide FlatOf, Document, Pressed;
    PressedIsApplied(p, LEFT);
    PressedIsApplied(p, RIGHT);
  }

  /** The codes of the keys and the limits of a document. */
  lemma KeysAndLimits(c: char)
    ensures Printable(c) <==> c >= ' '
    ensures UP as int == 1 && DOWN as int == 2 && LEFT as int == 3 && RIGHT as int == 4 && BACKSPACE as int == 8
    ensures MAX_LINES == 512 && MAX_LENGTH == 256
  {
  }

  /** A character is refused exactly if its line, and a newline exactly if the document, would grow too long. */
  lemma LimitsAreExact(p: Place, c: char)
    requires p.Valid() && (c == '\n' || Printable(c))
    ensures var s := p.lines[p.line];
            Fits(p.lines, p.line, p.column, c) <==>
              Document(if c == '\n' then Broken(p.lines, p.line, p.column)
                       else WithLine(p.lines, p.line, s[..p.column] + [c] + s[p.column..]))
  {
    hide Broken, WithLine, FlatOf, Applied;
    var s := p.lines[p.line];
    if c == '\n' {
      BrokenAt(p.lines, p.line, p.column);
      if |p.lines| < MAX_LINES {
        Split(p.lines, p.line, p.column);
      }
    } else {
      var t := s[..p.column] + [c] + s[p.column..];
      WithLineAt(p.lines, p.line, t);
      if |s| < MAX_LENGTH - 1 {
        Typed(p.lines, p.line, p.column, c);
      }
    }
  }
}
