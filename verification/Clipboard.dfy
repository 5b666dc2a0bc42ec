/**
 The editor's context menu: copy all, paste and clear. The clipboard is just large
 enough for the largest document, so copying, clearing and pasting restores it.
 */
module Clipboard {
  import opened FlatText
  import opened Editor

  class Clipboard {
    var text: string
    var containsText: bool

    constructor ()
      ensures text == "" && !containsText
    {
      text, containsText := "", false;
    }
  }

  lemma {:induction false} LengthBound(lines: seq<string>, n: nat)
    requires Document(lines) && n <= |lines|
    ensures LengthBefore(lines, n) <= MAX_LENGTH * n
  {
    if n > 0 {
      LengthBound(lines, n - 1);
    }
  }

  lemma LengthOfJoin(lines: seq<string>)
    requires |lines| > 0
    ensures |Join(lines)| == LengthBefore(lines, |lines| - 1) + |lines[|lines| - 1]|
  {
    var n := |lines| - 1;
    assert lines == lines[..n] + [lines[n]];
    JoinLength(lines[..n], lines[n]);
    LengthBeforePrefix(lines, n);
  }

  /** Every document fits the clipboard. */
  lemma DocumentFits(lines: seq<string>)
    requires Document(lines)
    ensures |Join(lines)| <= CAPACITY
  {
    LengthOfJoin(lines);
    LengthBound(lines, |lines| - 1);
  }

  lemma {:induction false} FullLengths(lines: seq<string>, n: nat)
    requires n <= |lines| && forall i :: 0 <= i < n ==> |lines[i]| == MAX_LENGTH - 1
    ensures LengthBefore(lines, n) == MAX_LENGTH * n
  {
    if n > 0 {
      FullLengths(lines, n - 1);
    }
  }

  /** A full document fills it to the last character: a smaller clipboard would not do. */
  lemma FullDocumentFills(lines: seq<string>)
    requires |lines| == MAX_LINES && forall i :: 0 <= i < |lines| ==> |lines[i]| == MAX_LENGTH - 1
    ensures |Join(lines)| == CAPACITY
  {
    LengthOfJoin(lines);
    FullLengths(lines, |lines| - 1);
  }

  /** The text of the first n lines, with a newline after each but the last of the document. */
  function CopiedText(lines: seq<string>, n: nat): (s: string)
    requires n <= |lines| && |lines| > 0
  {
    if n == 0 then "" else if n == |lines| then Join(lines) else Join(lines[..n]) + "\n"
  }

  lemma CopyNext(lines: seq<string>, n: nat)
    requires n < |lines|
    ensures |CopiedText(lines, n)| == LengthBefore(lines, n)
    ensures CopiedText(lines, n + 1) == CopiedText(lines, n) + lines[n] + (if n < |lines| - 1 then "\n" else "")
  {
    assert lines[..n + 1] == lines[..n] + [lines[n]];
    if n + 1 == |lines| {
      assert lines[..n + 1] == lines;
    }
    if n > 0 {
      JoinConcat(lines[..n], [lines[n]]);
      LengthOfJoin(lines[..n]);
      LengthBeforePrefix(lines, n - 1);
      LengthBeforeFrame(lines[..n], lines, n - 1);
    } else {
      assert lines[..n] == [];
    }
  }

  /** Copy the whole document, line by line, as far as the clipboard reaches: which is all of it. */
  method CopyAll(editor: Editor, clip: Clipboard)
    requires editor.Valid()
    modifies clip
    ensures clip.text == Join(editor.Lines()) && clip.containsText == (clip.text != "")
  {
    hide Join, LengthBefore, CopiedText, Document;
    ghost var lines := editor.Lines();
    var text := "";
    var i := 0;
    CopyStart(lines);
    while i < editor.total
      invariant i <= editor.total && text == CopiedText(lines, i)
    {
      CopyNext(lines, i);
      LengthBound(lines, i);
      LineFits(lines, i);
      var length := |editor.buffer[i]|;
      var remaining := CAPACITY - |text|;
      if remaining <= 0 {
        break;
      }
      if length > remaining {
        length := remaining;
      }
      text := text + editor.buffer[i][..length];
      if i < editor.total - 1 && |text| < CAPACITY {
        text := text + "\n";
      }
      i := i + 1;
    }
    CopyEnd(lines);
    clip.text := text;
    clip.containsText := |text| > 0;
  }

  lemma CopyStart(lines: seq<string>)
    requires |lines| > 0
    ensures CopiedText(lines, 0) == ""
  {
  }

  lemma CopyEnd(lines: seq<string>)
    requires |lines| > 0
    ensures CopiedText(lines, |lines|) == Join(lines)
  {
  }

  lemma LineFits(lines: seq<string>, i: nat)
    requires Document(lines) && i < |lines|
    ensures |lines[i]| < MAX_LENGTH && |lines| <= MAX_LINES
  {
  }

  method Clear(editor: Editor)
    requires editor.buffer.Length == MAX_LINES
    modifies editor, editor.buffer
    ensures editor.Valid() && editor.Lines() == [""] && editor.line == 0 && editor.column == 0
    ensures editor.scroll == 0 && !editor.selected && editor.unsaved
  {
    var i := 0;
    while i < MAX_LINES
      invariant i <= MAX_LINES && forall k :: 0 <= k < i ==> editor.buffer[k] == ""
    {
      editor.buffer[i] := "";
      i := i + 1;
    }
    editor.total, editor.line, editor.column, editor.scroll := 1, 0, 0, 0;
    editor.selected, editor.unsaved := false, true;
    assert editor.buffer[..1] == [""];
  }

  // Pasting a document into an empty one.

  predicate PrintableDocument(lines: seq<string>) {
    Document(lines) && forall i :: 0 <= i < |lines| ==> forall k :: 0 <= k < |lines[i]| ==> Printable(lines[i][k])
  }

  /** The document as far as line i, column c. */
  function Part(doc: seq<string>, i: nat, c: nat): (r: seq<string>)
    requires i < |doc| && c <= |doc[i]|
    ensures |r| == i + 1
  {
    doc[..i] + [doc[i][..c]]
  }

  lemma CharAt(doc: seq<string>, i: nat, c: nat)
    requires i < |doc| && c <= |doc[i]|
    ensures Offset(doc, i, c) <= |Join(doc)|
    ensures c < |doc[i]| ==> Offset(doc, i, c) < |Join(doc)| && Join(doc)[Offset(doc, i, c)] == doc[i][c]
    ensures c == |doc[i]| && i < |doc| - 1 ==>
              Offset(doc, i, c) < |Join(doc)| && Join(doc)[Offset(doc, i, c)] == '\n'
              && Offset(doc, i + 1, 0) == Offset(doc, i, c) + 1
    ensures c == |doc[i]| && i == |doc| - 1 ==> Offset(doc, i, c) == |Join(doc)|
  {
    TextAtCursor(doc, i, c);
    var rest := [doc[i][c..]] + doc[i + 1..];
    if i < |doc| - 1 {
      JoinConcat([doc[i][c..]], doc[i + 1..]);
    }
    var text, at := Join(doc), Offset(doc, i, c);
    assert text[at..] == Join(rest);
    if at < |text| {
      assert text[at..][0] == text[at];
    }
  }

  lemma PartGrows(doc: seq<string>, i: nat, c: nat)
    requires i < |doc| && c < |doc[i]|
    ensures var p := Part(doc, i, c);
            p[i] == doc[i][..c] && WithLine(p, i, p[i][..c] + [doc[i][c]] + p[i][c..]) == Part(doc, i, c + 1)
  {
    var p := Part(doc, i, c);
    assert p[..i] == doc[..i] && p[i + 1..] == [] && p[i][..c] == doc[i][..c] && p[i][c..] == "";
    assert doc[i][..c + 1] == doc[i][..c] + [doc[i][c]] + "";
  }

  lemma PartBreaks(doc: seq<string>, i: nat)
    requires i < |doc| - 1
    ensures var c := |doc[i]|; Part(doc, i, c)[i] == doc[i] && Broken(Part(doc, i, c), i, c) == Part(doc, i + 1, 0)
  {
    var c := |doc[i]|;
    var p := Part(doc, i, c);
    assert doc[i][..c] == doc[i] && doc[i][c..] == "" == doc[i + 1][..0];
    assert p[..i] == doc[..i] && p[i + 1..] == [];
    assert doc[..i + 1] == doc[..i] + [doc[i]];
    assert doc[..i] + [doc[i], ""] == doc[..i + 1] + [""];
  }

  /** The clipboard holds a document and the editor is empty. */
  ghost predicate Restores(lines: seq<string>, text: string, containsText: bool, doc: seq<string>) {
    lines == [""] && PrintableDocument(doc) && text == Join(doc) && containsText == (text != "")
  }

  /** The editor shows the document as far as line i, column c, and the cursor is there. */
  ghost predicate Typing(editor: Editor, doc: seq<string>, i: nat, c: nat, text: string, k: nat)
    reads editor, editor.buffer
  {
    && editor.Valid() && i < |doc| && c <= |doc[i]| && k == Offset(doc, i, c) <= |text|
    && editor.Lines() == Part(doc, i, c) && editor.line == i && editor.column == c
  }

  /** The character at a place of the document, and the place after it. */
  lemma NextPlace(doc: seq<string>, i: nat, c: nat) returns (i': nat, c': nat)
    requires PrintableDocument(doc) && i < |doc| && c <= |doc[i]| && Offset(doc, i, c) < |Join(doc)|
    ensures i' < |doc| && c' <= |doc[i']| && Offset(doc, i', c') == Offset(doc, i, c) + 1 <= |Join(doc)|
    ensures Part(doc, i, c)[i] == doc[i][..c]
    ensures var key, p := Join(doc)[Offset(doc, i, c)], Part(doc, i, c);
            || (i' == i && c' == c + 1 && Printable(key) && c < MAX_LENGTH - 1
                && Part(doc, i', c') == WithLine(p, i, p[i][..c] + [key] + p[i][c..]))
            || (i' == i + 1 && c' == 0 && key == '\n' && |p| < MAX_LINES && Part(doc, i', c') == Broken(p, i, c))
  {
    hide Join, LengthBefore, Broken, WithLine;
    CharAt(doc, i, c);
    if c < |doc[i]| {
      i', c' := i, c + 1;
      PartGrows(doc, i, c);
      CharAt(doc, i, c + 1);
    } else {
      i', c' := i + 1, 0;
      PartBreaks(doc, i);
      CharAt(doc, i + 1, 0);
      assert doc[i][..c] == doc[i];
    }
  }

  // Pasting in general: the keys of the text, one after the other.

  ghost function PressedAll(p: Place, text: string): (r: Place)
    requires p.Valid()
    ensures r.Valid()
    decreases |text|
  {
    if text == "" then p
    else
      var before := PressedAll(p, text[..|text| - 1]);
      PressedIsApplied(before, text[|text| - 1]);
      Pressed(before, text[|text| - 1])
  }

  /** No limit refuses any character of the text. */
  ghost predicate FitsAll(p: Place, text: string)
    requires p.Valid()
  {
    forall k {:trigger text[..k]} :: 0 <= k < |text| ==>
      var q := PressedAll(p, text[..k]); Fits(q.lines, q.line, q.column, text[k])
  }

  /** A text of newlines and printable characters that fits is inserted at the cursor, which ends behind it. */
  lemma {:induction false} PasteInserts(p: Place, text: string)
    requires p.Valid() && Typable(text) && FitsAll(p, text)
    ensures var f := p.View();
            PressedAll(p, text).View() == Flat(f.text[..f.at] + text + f.text[f.at..], f.at + |text|)
    decreases |text|
  {
    hide Fits, Pressed, FlatOf;
    var f := p.View();
    if text == "" {
      assert f.text[..f.at] + text + f.text[f.at..] == f.text;
    } else {
      var n := |text| - 1;
      var init := text[..n];
      assert forall k :: 0 <= k < n ==> init[..k] == text[..k];
      assert FitsAll(p, init);
      PasteInserts(p, init);
      var q := PressedAll(p, init);
      PressedIsApplied(q, text[n]);
      assert text[..n] == init && Fits(q.lines, q.line, q.column, text[n]);
      assert text == init + [text[n]];
      Inserted(f.text, f.at, init, text[n]);
    }
  }

  lemma Inserted(text: string, at: nat, s: string, c: char)
    requires at <= |text| && (c == '\n' || Printable(c))
    ensures Applied(Flat(text[..at] + s + text[at..], at + |s|), c)
            == Flat(text[..at] + (s + [c]) + text[at..], at + |s| + 1)
  {
    var t := text[..at] + s + text[at..];
    assert t[..at + |s|] == text[..at] + s && t[at + |s|..] == text[at..];
  }

  /** One key of the clipboard. */
  method TypeKey(editor: Editor, text: string, k: nat, ghost restores: bool, ghost doc: seq<string>, ghost i: nat,
                 ghost c: nat)
    returns (ghost i': nat, ghost c': nat)
    requires editor.Valid() && k < |text|
    requires restores ==> PrintableDocument(doc) && text == Join(doc) && Typing(editor, doc, i, c, text, k)
    modifies editor, editor.buffer
    ensures editor.Valid()
    ensures restores ==> Typing(editor, doc, i', c', text, k + 1)
    ensures editor.At() == Pressed(old(editor.At()), text[k])
    ensures old(Typable(editor.View().text)) ==> Typable(editor.View().text)
  {
    hide Join, LengthBefore, Broken, WithLine, Applied, FlatOf, Fits, Document, Part, Offset, Typable;
    i', c' := i, c;
    if Typable(editor.View().text) {
      AppliedTypable(editor.View(), text[k]);
    }
    TextOf(editor.Lines(), editor.line, editor.column);
    if restores {
      i', c' := NextPlace(doc, i, c);
    }
    editor.HandleKey(text[k]);
    TextOf(editor.Lines(), editor.line, editor.column);
  }

  /** Every character could have been typed. */
  predicate Typable(text: string) {
    forall i :: 0 <= i < |text| ==> text[i] == '\n' || Printable(text[i])
  }

  lemma AppliedTypable(f: Flat, c: char)
    requires f.at <= |f.text| && Typable(f.text)
    ensures Typable(Applied(f, c).text)
  {
  }

  lemma {:induction false} TypableLines(lines: seq<string>)
    requires |lines| > 0 && Typable(Join(lines)) && forall i :: 0 <= i < |lines| ==> IsLine(lines[i])
    ensures forall i, k :: 0 <= i < |lines| && 0 <= k < |lines[i]| ==> Printable(lines[i][k])
  {
    JoinStart(lines);
    forall k | 0 <= k < |lines[0]|
      ensures Printable(lines[0][k])
    {
      assert Join(lines)[k] == lines[0][k];
    }
    if |lines| > 1 {
      var rest := Join(lines[1..]);
      assert rest == Join(lines)[|lines[0]| + 1..];
      TypableLines(lines[1..]);
      forall i, k | 0 <= i < |lines| && 0 <= k < |lines[i]|
        ensures Printable(lines[i][k])
      {
        if i > 0 {
          assert lines[1..][i - 1] == lines[i];
        }
      }
    }
  }

  /** Type the clipboard's characters. Into an empty editor that types out the document they came from. */
  method Paste(editor: Editor, clip: Clipboard, ghost doc: seq<string>)
    requires editor.Valid()
    modifies editor, editor.buffer
    ensures editor.Valid()
    ensures old(Restores(editor.Lines(), clip.text, clip.containsText, doc)) ==>
              editor.Lines() == doc && editor.line == |doc| - 1 && editor.column == |doc[|doc| - 1]|
    ensures old(Typable(editor.View().text)) ==> Typable(editor.View().text)
    ensures editor.At() == if clip.containsText then PressedAll(old(editor.At()), clip.text) else old(editor.At())
  {
    hide Join, LengthBefore, Typable, FlatOf, Pressed;
    ghost var restores := Restores(editor.Lines(), clip.text, clip.containsText, doc);
    if !clip.containsText {
      if restores {
        EmptyText(doc);
      }
      return;
    }
    var text := clip.text;
    ghost var i: nat, c: nat := 0, 0;
    if restores {
      CharAt(doc, 0, 0);
      assert Part(doc, 0, 0) == [""];
      TypingStarts(doc);
    }
    var k := 0;
    while k < |text|
      invariant k <= |text| && editor.Valid()
      invariant restores ==> Typing(editor, doc, i, c, text, k)
      invariant old(Typable(editor.View().text)) ==> Typable(editor.View().text)
      invariant editor.At() == PressedAll(old(editor.At()), text[..k])
    {
      assert text[..k + 1][..k] == text[..k];
      i, c := TypeKey(editor, text, k, restores, doc, i, c);
      k := k + 1;
    }
    assert text[..k] == text;
    if restores {
      TypingEnds(doc, i, c);
    }
  }

  lemma TypingStarts(doc: seq<string>)
    requires |doc| > 0
    ensures Offset(doc, 0, 0) == 0
  {
  }

  /** The offset reaches the length of the text only at the end of the last line. */
  lemma TypingEnds(doc: seq<string>, i: nat, c: nat)
    requires i < |doc| && c <= |doc[i]| && Offset(doc, i, c) == |Join(doc)|
    ensures i == |doc| - 1 && c == |doc[i]| && Part(doc, i, c) == doc
  {
    CharAt(doc, i, c);
    assert doc[i][..c] == doc[i];
    assert doc[..i] + [doc[i]] == doc;
  }

  /** Copy all, clear, paste: the document is restored if and only if every character of it can be typed. */
  method CopyClearPaste(editor: Editor, clip: Clipboard)
    requires editor.Valid()
    modifies editor, editor.buffer, clip
    ensures editor.Valid()
    ensures editor.Lines() == old(editor.Lines()) <==> PrintableDocument(old(editor.Lines()))
  {
    hide Join, Document, Typable;
    ghost var doc := editor.Lines();
    CopyAll(editor, clip);
    Clear(editor);
    EmptyIsTypable();
    TextOf([""], 0, 0);
    Paste(editor, clip, doc);
    TextOf(editor.Lines(), editor.line, editor.column);
    if editor.Lines() == doc {
      DocumentIs(doc);
      TypableLines(doc);
    }
  }

  lemma EmptyIsTypable()
    ensures Join([""]) == "" && Typable("")
  {
  }

  lemma DocumentIs(doc: seq<string>)
    requires Document(doc)
    ensures |doc| > 0 && forall i :: 0 <= i < |doc| ==> IsLine(doc[i])
  {
  }

  lemma EmptyText(doc: seq<string>)
    requires |doc| > 0 && Join(doc) == ""
    ensures doc == [""]
  {
    JoinStart(doc);
  }
}
