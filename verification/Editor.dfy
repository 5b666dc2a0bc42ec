/**
 The line-array text editor. Rows of the buffer are the strings they hold; every key
 acts on the flat text at the cursor's offset or is refused.
 */
module Editor {
  import opened Arithmetic
  import opened FlatText

  const MAX_LINES: nat := 512
  const MAX_LENGTH: nat := 256
  const CAPACITY: nat := MAX_LINES * MAX_LENGTH - 1
  const UP: char := 1 as char
  const DOWN: char := 2 as char
  const LEFT: char := 3 as char
  const RIGHT: char := 4 as char
  const BACKSPACE: char := 8 as char

  predicate Printable(c: char) {
    c as int >= 0x20
  }

  // The flat view.

  datatype Flat = Flat(text: string, at: nat)

  /** What a key does to a text with a cursor, if nothing limits it. */
  function Applied(f: Flat, c: char): (r: Flat)
    requires f.at <= |f.text|
    ensures r.at <= |r.text|
  {
    if c == '\n' || Printable(c) then Flat(f.text[..f.at] + [c] + f.text[f.at..], f.at + 1)
    else if c == BACKSPACE && f.at > 0 then Flat(f.text[..f.at - 1] + f.text[f.at..], f.at - 1)
    else if c == LEFT && f.at > 0 then f.(at := f.at - 1)
    else if c == RIGHT && f.at < |f.text| then f.(at := f.at + 1)
    else f
  }

  /** The capacity limits: lines, characters in a line, and characters in two lines to be joined. */
  predicate Fits(lines: seq<string>, line: nat, column: nat, c: char)
    requires line < |lines|
  {
    if c == '\n' then |lines| < MAX_LINES
    else if Printable(c) then |lines[line]| < MAX_LENGTH - 1
    else if c == BACKSPACE && column == 0 && line > 0 then |lines[line - 1]| + |lines[line]| < MAX_LENGTH - 1
    else true
  }

  predicate Document(lines: seq<string>) {
    && 0 < |lines| <= MAX_LINES
    && forall i :: 0 <= i < |lines| ==> |lines[i]| < MAX_LENGTH && IsLine(lines[i])
  }

  function FlatOf(lines: seq<string>, line: nat, column: nat): (f: Flat)
    requires line < |lines| && column <= |lines[line]|
    ensures f.at <= |f.text|
  {
    TextAtCursor(lines, line, column);
    Flat(Join(lines), Offset(lines, line, column))
  }

  /** Joining is refused for two lines that together fill a line exactly, although such a line is allowed. */
  lemma FullLineIsNotJoined(a: string, b: string)
    requires |a| + |b| == MAX_LENGTH - 1 && IsLine(a) && IsLine(b)
    ensures !Fits([a, b], 1, 0, BACKSPACE) && Document([a, b]) && Document(FlatText.Merged([a, b], 1))
  {
    assert FlatText.Merged([a, b], 1) == [a + b];
  }

  /** A join is refused if and only if the joined line would be full or longer: one character too early. */
  lemma JoinLimit(lines: seq<string>, line: nat)
    requires Document(lines) && 0 < line < |lines|
    ensures Fits(lines, line, 0, BACKSPACE)
            <==> Document(FlatText.Merged(lines, line)) && |lines[line - 1] + lines[line]| != MAX_LENGTH - 1
  {
    var after := FlatText.Merged(lines, line);
    assert after[line - 1] == lines[line - 1] + lines[line];
    if |lines[line - 1]| + |lines[line]| < MAX_LENGTH - 1 {
      forall i | 0 <= i < |after|
        ensures |after[i]| < MAX_LENGTH && IsLine(after[i])
      {
        assert i < line - 1 ==> after[i] == lines[i];
        assert i >= line ==> after[i] == lines[i + 1];
      }
    }
  }

  // Steps.

  lemma Typed(lines: seq<string>, line: nat, column: nat, c: char)
    requires Document(lines) && line < |lines| && column <= |lines[line]|
    requires Printable(c) && Fits(lines, line, column, c)
    ensures var s := lines[line]; var after := WithLine(lines, line, s[..column] + [c] + s[column..]);
            Document(after) && FlatOf(after, line, column + 1) == Applied(FlatOf(lines, line, column), c)
  {
    TextAtCursor(lines, line, column);
    InsertInLine(lines, line, column, c);
    DocumentWithLine(lines, line, lines[line][..column] + [c] + lines[line][column..]);
  }

  lemma DocumentWithLine(lines: seq<string>, line: nat, s: string)
    requires Document(lines) && line < |lines| && |s| < MAX_LENGTH && IsLine(s)
    ensures Document(WithLine(lines, line, s))
  {
    var after := WithLine(lines, line, s);
    forall i | 0 <= i < |after|
      ensures |after[i]| < MAX_LENGTH && IsLine(after[i])
    {
      assert i != line ==> after[i] == lines[i];
    }
  }

  lemma Erased(lines: seq<string>, line: nat, column: nat)
    requires Document(lines) && line < |lines| && 0 < column <= |lines[line]|
    ensures var s := lines[line]; var after := WithLine(lines, line, s[..column - 1] + s[column..]);
            Document(after) && FlatOf(after, line, column - 1) == Applied(FlatOf(lines, line, column), BACKSPACE)
  {
    TextAtCursor(lines, line, column);
    TextAtCursor(lines, line, column - 1);
    DeleteInLine(lines, line, column);
    DocumentWithLine(lines, line, lines[line][..column - 1] + lines[line][column..]);
  }

  lemma Split(lines: seq<string>, line: nat, column: nat)
    requires Document(lines) && line < |lines| && column <= |lines[line]| && |lines| < MAX_LINES
    ensures var after := Broken(lines, line, column);
            Document(after) && line + 1 < |after|
            && FlatOf(after, line + 1, 0) == Applied(FlatOf(lines, line, column), '\n')
  {
    TextAtCursor(lines, line, column);
    BreakLine(lines, line, column);
    var after := Broken(lines, line, column);
    forall i | 0 <= i < |after|
      ensures |after[i]| < MAX_LENGTH && IsLine(after[i])
    {
      assert i < line ==> after[i] == lines[i];
      assert i > line + 1 ==> after[i] == lines[i - 1];
    }
  }

  lemma JoinedUp(lines: seq<string>, line: nat)
    requires Document(lines) && 0 < line < |lines| && Fits(lines, line, 0, BACKSPACE)
    ensures var after := FlatText.Merged(lines, line); var n := |lines[line - 1]|;
            Document(after) && |after| == |lines| - 1
            && FlatOf(after, line - 1, n) == Applied(FlatOf(lines, line, 0), BACKSPACE)
  {
    var n := |lines[line - 1]|;
    TextAtCursor(lines, line, 0);
    TextAtCursor(lines, line - 1, n);
    MergeLines(lines, line);
    JoinLimit(lines, line);
  }

  /** The cursor is at the start or the end of the text only on the first or the last line. */
  lemma Ends(lines: seq<string>, line: nat, column: nat)
    requires line < |lines| && column <= |lines[line]|
    ensures var f := FlatOf(lines, line, column);
            && (f.at == 0 <==> line == 0 && column == 0)
            && (f.at == |f.text| <==> line == |lines| - 1 && column == |lines[line]|)
  {
    TextAtCursor(lines, line, column);
    if line < |lines| - 1 {
      JoinConcat([lines[line][column..]], lines[line + 1..]);
    } else {
      assert [lines[line][column..]] + lines[line + 1..] == [lines[line][column..]];
    }
  }

  /** Stepping sideways in the lines is stepping in the flat text. */
  lemma Sideways(lines: seq<string>, line: nat, column: nat)
    requires line < |lines| && column <= |lines[line]|
    ensures column > 0 ==> FlatOf(lines, line, column - 1) == Applied(FlatOf(lines, line, column), LEFT)
    ensures column == 0 && line > 0 ==>
              FlatOf(lines, line - 1, |lines[line - 1]|) == Applied(FlatOf(lines, line, column), LEFT)
    ensures column == 0 && line == 0 ==> FlatOf(lines, line, column) == Applied(FlatOf(lines, line, column), LEFT)
    ensures column < |lines[line]| ==> FlatOf(lines, line, column + 1) == Applied(FlatOf(lines, line, column), RIGHT)
    ensures column == |lines[line]| && line < |lines| - 1 ==>
              FlatOf(lines, line + 1, 0) == Applied(FlatOf(lines, line, column), RIGHT)
    ensures column == |lines[line]| && line == |lines| - 1 ==>
              FlatOf(lines, line, column) == Applied(FlatOf(lines, line, column), RIGHT)
  {
    Ends(lines, line, column);
  }

  // A document with a cursor, and what each key does to it.

  datatype Place = Place(lines: seq<string>, line: nat, column: nat) {
    ghost predicate Valid() {
      Document(lines) && line < |lines| && column <= |lines[line]|
    }

    ghost function View(): (f: Flat)
      requires Valid()
      ensures f.at <= |f.text|
    {
      FlatOf(lines, line, column)
    }
  }

  function VerticalTarget(line: nat, total: nat, c: char): (r: nat) {
    if c == UP && line > 0 then line - 1 else if c == DOWN && line < total - 1 then line + 1 else line
  }

  ghost function Erasing(p: Place): (r: Place)
    requires p.Valid()
  {
    var s := p.lines[p.line];
    if p.column > 0 then
      Place(WithLine(p.lines, p.line, s[..p.column - 1] + s[p.column..]), p.line, p.column - 1)
    else if p.line > 0 && |p.lines[p.line - 1]| + |s| < MAX_LENGTH - 1 then
      Place(FlatText.Merged(p.lines, p.line), p.line - 1, |p.lines[p.line - 1]|)
    else p
  }

  ghost function Moving(p: Place, c: char): (r: Place)
    requires p.Valid()
  {
    var s := p.lines[p.line];
    if c == LEFT then
      if p.column > 0 then p.(column := p.column - 1)
      else if p.line > 0 then Place(p.lines, p.line - 1, |p.lines[p.line - 1]|)
      else p
    else if c == RIGHT then
      if p.column < |s| then p.(column := p.column + 1)
      else if p.line < |p.lines| - 1 then Place(p.lines, p.line + 1, 0)
      else p
    else
      var target := VerticalTarget(p.line, |p.lines|, c);
      var end := |p.lines[target]|;
      Place(p.lines, target, if p.column > end then end else p.column)
  }

  ghost function Pressed(p: Place, c: char): (r: Place)
    requires p.Valid()
  {
    var s := p.lines[p.line];
    if c == '\n' then
      if |p.lines| < MAX_LINES then Place(Broken(p.lines, p.line, p.column), p.line + 1, 0) else p
    else if c == BACKSPACE then Erasing(p)
    else if c == UP || c == DOWN || c == LEFT || c == RIGHT then Moving(p, c)
    else if Printable(c) && |s| < MAX_LENGTH - 1 then
      Place(WithLine(p.lines, p.line, s[..p.column] + [c] + s[p.column..]), p.line, p.column + 1)
    else p
  }

  /** On the flat text every key but up and down inserts, deletes or moves at the offset, or a limit refuses it. */
  lemma PressedIsApplied(p: Place, c: char)
    requires p.Valid()
    ensures Pressed(p, c).Valid()
    ensures c != UP && c != DOWN ==>
              Pressed(p, c).View() == if Fits(p.lines, p.line, p.column, c) then Applied(p.View(), c) else p.View()
  {
    hide Document, FlatOf, Applied, Broken, FlatText.Merged;
    FitsIs(p.lines, p.line, p.column, c);
    if c == '\n' {
      if |p.lines| < MAX_LINES {
        Split(p.lines, p.line, p.column);
        BrokenAt(p.lines, p.line, p.column);
      }
    } else if c == BACKSPACE {
      ErasingIsApplied(p);
    } else if c == UP || c == DOWN || c == LEFT || c == RIGHT {
      Sideways(p.lines, p.line, p.column);
    } else if Printable(c) {
      if |p.lines[p.line]| < MAX_LENGTH - 1 {
        Typed(p.lines, p.line, p.column, c);
        WithLineAt(p.lines, p.line, p.lines[p.line][..p.column] + [c] + p.lines[p.line][p.column..]);
      }
    } else {
      OtherKey(p.View(), c);
    }
  }

  /** A key that a limit refuses, after which the handler returns at once. */
  ghost predicate Refused(p: Place, c: char)
    requires p.Valid()
  {
    (c == '\n' || Printable(c)) && !Fits(p.lines, p.line, p.column, c)
  }

  /** The line is one of the visible rows, and no smaller change of the scroll offset makes it one. */
  ghost predicate ScrolledTo(before: int, after: int, line: int, rows: int) {
    Shows(after, line, rows) && forall s {:trigger Shows(s, line, rows)} ::
      Shows(s, line, rows) ==> Abs(after - before) <= Abs(s - before)
  }

  predicate Shows(scroll: int, line: int, rows: int) {
    scroll <= line < scroll + rows
  }

  lemma MovingKeepsLines(p: Place, c: char)
    requires p.Valid()
    ensures Moving(p, c).lines == p.lines
  {
  }

  lemma OtherKey(f: Flat, c: char)
    requires f.at <= |f.text| && c != '\n' && c != BACKSPACE && c != LEFT && c != RIGHT && !Printable(c)
    ensures Applied(f, c) == f
  {
  }

  lemma BrokenAt(lines: seq<string>, line: nat, column: nat)
    requires line < |lines| && column <= |lines[line]|
    ensures |Broken(lines, line, column)| == |lines| + 1
  {
  }

  lemma WithLineAt(lines: seq<string>, line: nat, s: string)
    requires line < |lines|
    ensures |WithLine(lines, line, s)| == |lines| && WithLine(lines, line, s)[line] == s
  {
  }

  lemma MergedAt(lines: seq<string>, line: nat)
    requires 0 < line < |lines|
    ensures var m := FlatText.Merged(lines, line);
            |m| == |lines| - 1 && m[line - 1] == lines[line - 1] + lines[line]
  {
  }

  lemma ErasingIsApplied(p: Place)
    requires p.Valid()
    ensures Erasing(p).Valid()
    ensures Erasing(p).View()
            == if Fits(p.lines, p.line, p.column, BACKSPACE) then Applied(p.View(), BACKSPACE) else p.View()
  {
    hide Document, FlatOf, Applied, FlatText.Merged, WithLine;
    if p.column > 0 {
      Erased(p.lines, p.line, p.column);
      WithLineAt(p.lines, p.line, p.lines[p.line][..p.column - 1] + p.lines[p.line][p.column..]);
    } else if p.line > 0 {
      if Fits(p.lines, p.line, 0, BACKSPACE) {
        JoinedUp(p.lines, p.line);
        MergedAt(p.lines, p.line);
      }
    } else {
      EndsApplied(p.lines, p.line, p.column);
    }
  }

  class Editor {
    const buffer: array<string>
    const visibleRows: int
    var total: nat
    var line: nat
    var column: nat
    var scroll: int
    var unsaved: bool
    var selected: bool

    ghost predicate Valid()
      reads this, buffer
    {
      && buffer.Length == MAX_LINES && 0 < total <= MAX_LINES && Document(buffer[..total])
      && line < total && column <= |buffer[line]|
    }

    ghost function Lines(): (r: seq<string>)
      requires Valid()
      reads this, buffer
    {
      buffer[..total]
    }

    ghost function View(): (f: Flat)
      requires Valid()
      reads this, buffer
    {
      FlatOf(buffer[..total], line, column)
    }

    ghost function At(): (p: Place)
      requires Valid()
      reads this, buffer
      ensures p.Valid() && p.View() == View()
    {
      Place(buffer[..total], line, column)
    }

    constructor (visibleRows: int)
      ensures Valid() && fresh(buffer) && Lines() == [""] && line == 0 && column == 0 && this.visibleRows == visibleRows
    {
      buffer := new string[MAX_LINES](i => "");
      this.visibleRows := visibleRows;
      total, line, column, scroll, unsaved, selected := 1, 0, 0, 0, false, false;
      new;
      assert buffer[..1] == [""];
    }

    method ClampColumn()
      requires buffer.Length == MAX_LINES && line < MAX_LINES
      modifies this`column
      ensures column == if old(column) > |buffer[line]| then |buffer[line]| else old(column)
    {
      if column > |buffer[line]| {
        column := |buffer[line]|;
      }
    }

    /** Scroll just far enough that the cursor line is one of the visible rows. */
    method ScrollToCursor()
      modifies this`scroll
      ensures visibleRows > 0 ==> ScrolledTo(old(scroll), scroll, line, visibleRows)
    {
      if line < scroll {
        scroll := line;
      }
      if line >= scroll + visibleRows {
        scroll := line - visibleRows + 1;
      }
    }

    method ShiftDown(from: nat)
      requires buffer.Length == MAX_LINES && from <= total < MAX_LINES
      modifies buffer
      ensures forall i ::
                0 <= i < MAX_LINES ==> buffer[i] == if from < i <= total then old(buffer[i - 1]) else old(buffer[i])
    {
      var shift := total;
      while shift > from
        invariant from <= shift <= total
        invariant forall i ::
                    0 <= i < MAX_LINES ==>
                      buffer[i] == if shift < i <= total then old(buffer[i - 1]) else old(buffer[i])
      {
        buffer[shift] := buffer[shift - 1];
        shift := shift - 1;
      }
    }

    method ShiftUp(from: nat)
      requires buffer.Length == MAX_LINES && from < total <= MAX_LINES
      modifies buffer
      ensures forall i ::
                0 <= i < MAX_LINES ==> buffer[i] == if from <= i < total - 1 then old(buffer[i + 1]) else old(buffer[i])
    {
      var shift := from;
      while shift < total - 1
        invariant from <= shift <= total - 1
        invariant forall i ::
                    0 <= i < MAX_LINES ==> buffer[i] == if from <= i < shift then old(buffer[i + 1]) else old(buffer[i])
      {
        buffer[shift] := buffer[shift + 1];
        shift := shift + 1;
      }
    }

    method BreakAtCursor()
      requires Valid() && total < MAX_LINES
      modifies this, buffer
      ensures Valid() && buffer[..total] == Broken(old(buffer[..total]), old(line), old(column))
      ensures line == old(line) + 1 && column == 0 && unsaved && scroll == old(scroll) && selected == old(selected)
    {
      hide Document, Broken;
      ghost var lines := buffer[..total];
      Split(lines, line, column);
      ShiftDown(line + 1);
      var tail := buffer[line][column..];
      buffer[line] := buffer[line][..column];
      buffer[line + 1] := tail;
      BrokenIs(lines, line, column, buffer[..total + 1]);
      total := total + 1;
      line := line + 1;
      column := 0;
      unsaved := true;
    }

    /** Put the cursor's line behind the one before it and close the gap. */
    method JoinRows()
      requires buffer.Length == MAX_LINES && 0 < line < total <= MAX_LINES
      modifies buffer
      ensures buffer[..total - 1] == FlatText.Merged(old(buffer[..total]), line)
      ensures buffer[line - 1] == old(buffer[line - 1]) + old(buffer[line])
    {
      hide FlatText.Merged;
      ghost var lines := buffer[..total];
      buffer[line - 1] := buffer[line - 1] + buffer[line];
      ShiftUp(line);
      buffer[total - 1] := "";
      MergedIs(lines, line, buffer[..total - 1]);
    }

    method JoinWithPrevious()
      requires Valid() && 0 < line && Fits(buffer[..total], line, 0, BACKSPACE)
      modifies this, buffer
      ensures Valid() && buffer[..total] == FlatText.Merged(old(buffer[..total]), old(line))
      ensures line == old(line) - 1 && column == |old(buffer[line - 1])|
      ensures unsaved && scroll == old(scroll) && selected == old(selected)
    {
      hide Document, FlatText.Merged, Fits, FlatOf, Applied;
      ghost var lines := buffer[..total];
      JoinedUp(lines, line);
      var n := |buffer[line - 1]|;
      JoinRows();
      total := total - 1;
      line := line - 1;
      column := n;
      unsaved := true;
    }

    method Backspace()
      requires Valid()
      modifies this, buffer
      ensures Valid() && scroll == old(scroll) && selected == old(selected)
      ensures View() ==
                if Fits(old(Lines()), old(line), old(column), BACKSPACE) then Applied(old(View()), BACKSPACE)
                else old(View())
      ensures At() == Erasing(old(At()))
      ensures unsaved == (old(unsaved) || View() != old(View()))
    {
      hide Document, FlatOf, Applied;
      ghost var lines := buffer[..total];
      EndsApplied(lines, line, column);
      if column > 0 {
        Erased(lines, line, column);
        buffer[line] := buffer[line][..column - 1] + buffer[line][column..];
        assert buffer[..total] == WithLine(lines, line, lines[line][..column - 1] + lines[line][column..]);
        column := column - 1;
        unsaved := true;
      } else if line > 0 {
        if |buffer[line - 1]| + |buffer[line]| < MAX_LENGTH - 1 {
          JoinedUp(lines, line);
          JoinWithPrevious();
        }
      }
    }

    method Type(c: char)
      requires Valid() && Printable(c) && |buffer[line]| < MAX_LENGTH - 1
      modifies this, buffer
      ensures Valid() && scroll == old(scroll) && selected == old(selected) && unsaved
      ensures View() == Applied(old(View()), c)
      ensures line == old(line) && column == old(column) + 1
      ensures Lines()
              == WithLine(old(Lines()), line, old(buffer[line])[..old(column)] + [c] + old(buffer[line])[old(column)..])
    {
      hide Document, FlatOf, Applied;
      ghost var lines := buffer[..total];
      Typed(lines, line, column, c);
      buffer[line] := buffer[line][..column] + [c] + buffer[line][column..];
      assert buffer[..total] == WithLine(lines, line, lines[line][..column] + [c] + lines[line][column..]);
      column := column + 1;
      unsaved := true;
    }

    /** Up and down keep the column, or take the end of a shorter line. */
    method MoveVertically(c: char)
      requires Valid() && (c == UP || c == DOWN)
      modifies this`line, this`column
      ensures Valid() && At() == Moving(old(At()), c)
    {
      if c == UP {
        if line > 0 {
          line := line - 1;
          ClampColumn();
        }
      } else {
        if line < total - 1 {
          line := line + 1;
          ClampColumn();
        }
      }
    }

    method MoveSideways(c: char)
      requires Valid() && (c == LEFT || c == RIGHT)
      modifies this`line, this`column
      ensures Valid() && At() == Moving(old(At()), c)
    {
      hide Document;
      if c == LEFT {
        if column > 0 {
          column := column - 1;
        } else if line > 0 {
          line := line - 1;
          column := |buffer[line]|;
        }
      } else {
        if column < |buffer[line]| {
          column := column + 1;
        } else if line < total - 1 {
          line := line + 1;
          column := 0;
        }
      }
    }

    /** The effect of one key on the document and the cursor; keys that hit a limit are refused. */
    method ApplyKey(c: char) returns (refused: bool)
      requires Valid()
      modifies this, buffer
      ensures Valid()
      ensures At() == Pressed(old(At()), c)
      ensures c != UP && c != DOWN ==>
                View() == if Fits(old(Lines()), old(line), old(column), c) then Applied(old(View()), c) else old(View())
      ensures unsaved == (old(unsaved) || View().text != old(View().text))
      ensures selected == old(selected) && scroll == old(scroll)
      ensures refused <==> Refused(old(At()), c)
    {
      hide Document, Broken, WithLine, FlatOf, Fits, Applied, Moving, Erasing;
      FitsIs(buffer[..total], line, column, c);
      PressedIsApplied(At(), c);
      TextOf(buffer[..total], line, column);
      AppliedText(View(), c);
      refused := false;
      if c == '\n' {
        if total >= MAX_LINES {
          return true;
        }
        BreakAtCursor();
      } else if c == BACKSPACE {
        Backspace();
      } else if c == UP || c == DOWN {
        ghost var before := At();
        MoveVertically(c);
        MovingKeepsLines(before, c);
        TextOf(buffer[..total], line, column);
      } else if c == LEFT || c == RIGHT {
        ghost var before := At();
        MoveSideways(c);
        MovingKeepsLines(before, c);
        TextOf(buffer[..total], line, column);
      } else if Printable(c) {
        if |buffer[line]| >= MAX_LENGTH - 1 {
          return true;
        }
        Type(c);
      }
    }

    /** One key. Keys that insert, delete or step sideways act on the flat text; up and down change the line. */
    method HandleKey(c: char)
      requires Valid()
      modifies this, buffer
      ensures Valid()
      ensures At() == Pressed(old(At()), c)
      ensures c != UP && c != DOWN ==>
                View() == if Fits(old(Lines()), old(line), old(column), c) then Applied(old(View()), c) else old(View())
      ensures unsaved == (old(unsaved) || View().text != old(View().text))
      ensures Refused(old(At()), c) ==> scroll == old(scroll)
      ensures !Refused(old(At()), c) && visibleRows > 0 ==> ScrolledTo(old(scroll), scroll, line, visibleRows)
      ensures selected == (old(selected) && (c == UP || c == DOWN || c == LEFT || c == RIGHT))
    {
      hide Document, FlatOf, Fits, Applied, Pressed;
      if selected && !(c == UP || c == DOWN || c == LEFT || c == RIGHT) {
        selected := false;
      }
      var refused := ApplyKey(c);
      if refused {
        return;
      }
      ScrollToCursor();
    }
  }

  /** Inserting changes the text, moving does not, and backspace changes it if it does anything. */
  lemma AppliedText(f: Flat, c: char)
    requires f.at <= |f.text|
    ensures c == '\n' || Printable(c) ==> Applied(f, c).text != f.text
    ensures c == LEFT || c == RIGHT ==> Applied(f, c).text == f.text
    ensures c == BACKSPACE ==> (Applied(f, c).text != f.text <==> Applied(f, c) != f)
    ensures c != '\n' && !Printable(c) && c != BACKSPACE && c != LEFT && c != RIGHT ==> Applied(f, c) == f
  {
    if c == '\n' || Printable(c) {
      assert |Applied(f, c).text| == |f.text| + 1;
    } else if c == BACKSPACE && f.at > 0 {
      assert |Applied(f, c).text| == |f.text| - 1;
    }
  }

  lemma TextOf(lines: seq<string>, line: nat, column: nat)
    requires line < |lines| && column <= |lines[line]|
    ensures FlatOf(lines, line, column).text == Join(lines)
  {
  }

  lemma FitsIs(lines: seq<string>, line: nat, column: nat, c: char)
    requires line < |lines|
    ensures c == '\n' ==> (Fits(lines, line, column, c) <==> |lines| < MAX_LINES)
    ensures Printable(c) ==> (Fits(lines, line, column, c) <==> |lines[line]| < MAX_LENGTH - 1)
    ensures c != '\n' && c != BACKSPACE && !Printable(c) ==> Fits(lines, line, column, c)
  {
  }

  /** At the very start, backspace does nothing. */
  lemma EndsApplied(lines: seq<string>, line: nat, column: nat)
    requires line < |lines| && column <= |lines[line]|
    ensures line == 0 && column == 0 ==> Applied(FlatOf(lines, line, column), BACKSPACE) == FlatOf(lines, line, column)
    ensures !(line == 0 && column == 0) ==>
              Applied(FlatOf(lines, line, column), BACKSPACE) != FlatOf(lines, line, column)
  {
    Ends(lines, line, column);
  }

  lemma BrokenIs(lines: seq<string>, line: nat, column: nat, r: seq<string>)
    requires line < |lines| && column <= |lines[line]| && |r| == |lines| + 1
    requires r[line] == lines[line][..column] && r[line + 1] == lines[line][column..]
    requires forall i :: 0 <= i < line ==> r[i] == lines[i]
    requires forall i :: line + 2 <= i < |r| ==> r[i] == lines[i - 1]
    ensures r == Broken(lines, line, column)
  {
    var b := Broken(lines, line, column);
    assert |lines[..line]| == line && b[line] == lines[line][..column] && b[line + 1] == lines[line][column..];
    forall i | 0 <= i < |r|
      ensures r[i] == b[i]
    {
      if i < line {
        assert b[i] == lines[i];
      } else if i > line + 1 {
        assert b[i] == lines[i - 1];
      }
    }
  }

  lemma MergedIs(lines: seq<string>, line: nat, r: seq<string>)
    requires 0 < line < |lines| && |r| == |lines| - 1 && r[line - 1] == lines[line - 1] + lines[line]
    requires forall i :: 0 <= i < line - 1 ==> r[i] == lines[i]
    requires forall i :: line <= i < |r| ==> r[i] == lines[i + 1]
    ensures r == FlatText.Merged(lines, line)
  {
    var b := FlatText.Merged(lines, line);
    assert |lines[..line - 1]| == line - 1 && b[line - 1] == lines[line - 1] + lines[line];
    forall i | 0 <= i < |r|
      ensures r[i] == b[i]
    {
      if i < line - 1 {
        assert b[i] == lines[i] && r[i] == lines[i];
      } else if i >= line {
        assert r[i] == lines[i + 1];
        assert b[i] == lines[line + 1..][i - line];
      }
    }
  }
}
