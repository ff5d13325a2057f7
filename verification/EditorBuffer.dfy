/**
 The editor's keys: a document with a row and a column, edited in place. Each key does to
 the flat text, at one offset, what its name says, or changes nothing.
 */
module EditorBuffer {
  import opened EditorText
  import opened EditorDoc

  function Clamp(v: int, hi: nat): (r: nat)
    ensures r <= hi
  {
    if v < 0 then 0 else if v > hi then hi else v
  }

  function Distance(a: int, b: int): nat {
    if a < b then b - a else a - b
  }

  /** Of all values in range it is the nearest, and the only one as near. */
  lemma ClampIsNearest(v: int, hi: nat, k: nat)
    requires k <= hi
    ensures Distance(v, Clamp(v, hi)) <= Distance(v, k)
    ensures Distance(v, Clamp(v, hi)) == Distance(v, k) ==> k == Clamp(v, hi)
  {
  }

  // The row and column every edit clamps the cursor to first.

  function RowAt(lines: seq<Line>, cy: int): (y: nat)
    ensures lines != [] ==> y < |lines|
  {
    if lines == [] then 0 else Clamp(cy, |lines| - 1)
  }

  function ColAt(lines: seq<Line>, cx: int, cy: int): (x: nat)
    ensures lines != [] ==> x <= |lines[RowAt(lines, cy)]|
  {
    if lines == [] then 0 else Clamp(cx, |lines[RowAt(lines, cy)]|)
  }

  /** The length of the line a row is on. */
  function LengthAt(lines: seq<Line>, y: nat): nat {
    if y < |lines| then |lines[y]| else 0
  }

  /** Whether one more character fits on a line and into the document. */
  predicate RoomAt(lines: seq<Line>, y: nat) {
    LengthAt(lines, y) + 1 < MAX_LINE && Total(lines) + 1 <= MAX_TOTAL
  }

  /** The flat view of an edit: `cut` characters at `at` replaced by `mid`. */
  ghost predicate IsSplice(before: seq<char>, after: seq<char>, at: nat, cut: nat, mid: seq<char>) {
    at + cut <= |before| && after == Splice(before, at, cut, mid)
  }

  class Editor {
    const doc: Document
    var cx: int
    var cy: int
    var modified: bool

    ghost predicate Ok()
      reads this, doc, doc.line, doc.len
    {
      doc.Valid() && NoNewlines(doc.Lines())
    }

    ghost predicate InBounds()
      requires doc.Valid()
      reads this, doc, doc.line, doc.len
    {
      0 <= cy < doc.count && 0 <= cx <= |doc.Lines()[cy]|
    }

    ghost function Row(): nat
      requires doc.Valid()
      reads this, doc, doc.line, doc.len
    {
      RowAt(doc.Lines(), cy)
    }

    ghost function Col(): nat
      requires doc.Valid()
      reads this, doc, doc.line, doc.len
    {
      ColAt(doc.Lines(), cx, cy)
    }

    ghost function Text(): seq<char>
      requires doc.Valid()
      reads this, doc, doc.line, doc.len
    {
      Flat(doc.Lines())
    }

    ghost function Pos(): nat
      requires doc.Valid()
      reads this, doc, doc.line, doc.len
    {
      Offset(doc.Lines(), Row(), Col())
    }

    ghost predicate HasRoom()
      requires doc.Valid()
      reads this, doc, doc.line, doc.len
    {
      RoomAt(doc.Lines(), Row())
    }

    constructor ()
      ensures Ok() && doc.Lines() == [] && !modified && fresh(doc) && fresh(doc.line) && fresh(doc.len)
    {
      doc := new Document();
      cx, cy, modified := 0, 0, false;
    }

    method ClampCursor()
      requires doc.Valid()
      modifies this`cx, this`cy
      ensures cy == old(Row()) && cx == old(Col())
      ensures Row() == old(Row()) && Col() == old(Col()) && (doc.count > 0 ==> InBounds())
    {
      if doc.count == 0 {
        cy, cx := 0, 0;
        return;
      }
      if cy < 0 {
        cy := 0;
      }
      if cy > doc.count - 1 {
        cy := doc.count - 1;
      }
      assert doc.len[..doc.count][cy] == |doc.Lines()[cy]|;
      if cx < 0 {
        cx := 0;
      }
      if cx > doc.len[cy] {
        cx := doc.len[cy];
      }
    }

    /** An empty document gets its first line before anything is put into it. */
    method EnsureLine()
      requires Ok()
      modifies this`cx, this`cy, doc, doc.line, doc.len
      ensures Ok() && InBounds() && (doc.line == old(doc.line) || fresh(doc.line)) && (doc.len == old(doc.len) || fresh(doc.len))
      ensures cy == old(Row()) && cx == old(Col())
      ensures doc.Lines() == if old(doc.Lines()) == [] then [[]] else old(doc.Lines())
    {
      ClampCursor();
      if doc.count == 0 {
        var _ := doc.Insert(0, []);
        assert doc.Lines() == [[]];
      }
    }

    method InsertChar(ch: char)
      requires Ok() && ch != '\n'
      modifies this, doc, doc.line, doc.len
      ensures Ok() && InBounds() && (doc.line == old(doc.line) || fresh(doc.line)) && (doc.len == old(doc.len) || fresh(doc.len))
      ensures old(HasRoom()) ==> IsSplice(old(Text()), Text(), old(Pos()), 0, [ch]) && Pos() == old(Pos()) + 1 && modified
      ensures !old(HasRoom()) ==>
                Text() == old(Text()) && Pos() == old(Pos()) && modified == old(modified) && !HasRoom()
    {
      EnsureLine();
      FirstLine(old(doc.Lines()));
      assert doc.len[..doc.count][cy] == |doc.Lines()[cy]|;
      var l := doc.len[cy];
      if l + 1 >= MAX_LINE {
        return;
      }
      var total := doc.Sum();
      if total + 1 > MAX_TOTAL {
        return;
      }
      PutChar(ch);
    }

    /** The character into the line the cursor is on. */
    method PutChar(ch: char)
      requires Ok() && InBounds() && ch != '\n'
      modifies this, doc.line, doc.len
      ensures Ok() && InBounds()
      ensures IsSplice(old(Text()), Text(), old(Pos()), 0, [ch]) && Pos() == old(Pos()) + 1 && modified
    {
      ghost var was := doc.Lines();
      SpliceLineIsSplice(was, cy, cx, 0, [ch]);
      SpliceHasNoNewlines(was, cy, cx, 0, [ch]);
      doc.SetLine(cy, doc.line[cy][..cx] + [ch] + doc.line[cy][cx..]);
      assert doc.Lines() == SpliceLine(was, cy, cx, 0, [ch]);
      cx := cx + 1;
      modified := true;
    }

    /**
     The line is cut before the insertion of its tail can be refused. Below the line limit
     this is a newline in the text; at the limit the tail is gone.
     */
    method InsertNewline()
      requires Ok()
      modifies this, doc, doc.line, doc.len
      ensures Ok() && InBounds() && (doc.line == old(doc.line) || fresh(doc.line)) && (doc.len == old(doc.len) || fresh(doc.len))
      ensures old(doc.count) < MAX_LINES ==>
                IsSplice(old(Text()), Text(), old(Pos()), 0, ['\n']) && Pos() == old(Pos()) + 1 && modified
      ensures old(doc.count) == MAX_LINES ==>
                && doc.count == MAX_LINES && Text() == NewlineAtLimit(old(doc.Lines()), old(Row()), old(Col()))
                && Pos() == old(Pos()) && modified == old(modified)
    {
      EnsureLine();
      FirstLine(old(doc.Lines()));
      SplitHere();
    }

    /** The newline itself, in a document that has lines. */
    method SplitHere()
      requires Ok() && InBounds()
      modifies this, doc, doc.line, doc.len
      ensures Ok() && InBounds() && (doc.line == old(doc.line) || fresh(doc.line)) && (doc.len == old(doc.len) || fresh(doc.len))
      ensures old(doc.count) < MAX_LINES ==>
                IsSplice(old(Text()), Text(), old(Pos()), 0, ['\n']) && Pos() == old(Pos()) + 1 && modified
      ensures old(doc.count) == MAX_LINES ==>
                && doc.Lines() == old(doc.Lines())[old(cy) := old(doc.Lines())[old(cy)][..old(cx)]]
                && Pos() == old(Pos()) && modified == old(modified)
    {
      ghost var was := doc.Lines();
      CutLineOk(was, cy, cx);
      SplitIsNewline(was, cy, cx);
      SplitHasNoNewlines(was, cy, cx);
      var ok := SplitDoc();
      if !ok {
        return;
      }
      cy := cy + 1;
      cx := 0;
      modified := true;
    }

    /** The line is cut at the cursor, and its tail inserted below it if there is room for a line. */
    method SplitDoc() returns (ok: bool)
      requires Ok() && InBounds()
      modifies doc, doc.line, doc.len
      ensures doc.Valid() && (doc.line == old(doc.line) || fresh(doc.line)) && (doc.len == old(doc.len) || fresh(doc.len))
      ensures ok == (old(doc.count) < MAX_LINES)
      ensures doc.Lines() == if ok then SplitLine(old(doc.Lines()), cy, cx) else old(doc.Lines())[cy := old(doc.Lines())[cy][..cx]]
    {
      var tail := doc.line[cy][cx..];
      assert tail == doc.Lines()[cy][cx..];
      SplitByInsert(doc.Lines(), cy, cx);
      doc.SetLine(cy, doc.line[cy][..cx]);
      ok := doc.Insert(cy + 1, tail);
    }

    /** Line `y + 1` goes behind line `y`. */
    method JoinDoc(y: nat)
      requires Ok() && y + 1 < doc.count
      modifies doc, doc.line, doc.len
      ensures doc.Valid() && doc.Lines() == JoinLines(old(doc.Lines()), y)
    {
      JoinByDelete(doc.Lines(), y);
      doc.SetLine(y, doc.line[y] + doc.line[y + 1]);
      doc.Delete(y + 1);
    }

    method Backspace()
      requires Ok()
      modifies this, doc, doc.line, doc.len
      ensures Ok() && (old(doc.count) > 0 ==> InBounds())
      ensures old(Pos()) == 0 || old(BackspaceTooLong()) ==>
                doc.Lines() == old(doc.Lines()) && Pos() == old(Pos()) && modified == old(modified)
      ensures old(Pos()) > 0 && !old(BackspaceTooLong()) ==>
                IsSplice(old(Text()), Text(), old(Pos()) - 1, 1, []) && Pos() == old(Pos()) - 1 && modified
    {
      ClampCursor();
      if doc.count == 0 {
        assert doc.Lines()[..0] == [];
        return;
      }
      OffsetInText(doc.Lines(), cy, cx);
      if cx > 0 {
        EraseLeft();
        return;
      }
      if cy == 0 {
        return;
      }
      JoinUp();
    }

    /** Backspace within a line: the rest of the line moves down over one character. */
    method EraseLeft()
      requires Ok() && InBounds() && cx > 0
      modifies this, doc.line, doc.len
      ensures Ok() && InBounds()
      ensures IsSplice(old(Text()), Text(), old(Pos()) - 1, 1, []) && Pos() == old(Pos()) - 1 && modified
    {
      ghost var was := doc.Lines();
      SpliceLineIsSplice(was, cy, cx - 1, 1, []);
      SpliceHasNoNewlines(was, cy, cx - 1, 1, []);
      doc.SetLine(cy, doc.line[cy][..cx - 1] + doc.line[cy][cx..]);
      assert was[cy][..cx - 1] + [] + was[cy][cx..] == was[cy][..cx - 1] + was[cy][cx..];
      assert doc.Lines() == SpliceLine(was, cy, cx - 1, 1, []);
      cx := cx - 1;
      modified := true;
    }

    /** Delete within a line. */
    method EraseRight()
      requires Ok() && InBounds() && cx < |doc.Lines()[cy]|
      modifies this, doc.line, doc.len
      ensures Ok() && InBounds()
      ensures IsSplice(old(Text()), Text(), old(Pos()), 1, []) && Pos() == old(Pos()) && modified
    {
      ghost var was := doc.Lines();
      SpliceLineIsSplice(was, cy, cx, 1, []);
      SpliceHasNoNewlines(was, cy, cx, 1, []);
      doc.SetLine(cy, doc.line[cy][..cx] + doc.line[cy][cx + 1..]);
      assert was[cy][..cx] + [] + was[cy][cx + 1..] == was[cy][..cx] + was[cy][cx + 1..];
      assert doc.Lines() == SpliceLine(was, cy, cx, 1, []);
      modified := true;
    }

    /** Backspace at the start of a line below the first. */
    method JoinUp()
      requires Ok() && InBounds() && cx == 0 && cy > 0
      modifies this, doc, doc.line, doc.len
      ensures Ok() && InBounds()
      ensures old(BackspaceTooLong()) ==> doc.Lines() == old(doc.Lines()) && Pos() == old(Pos()) && modified == old(modified)
      ensures !old(BackspaceTooLong()) ==>
                IsSplice(old(Text()), Text(), old(Pos()) - 1, 1, []) && Pos() == old(Pos()) - 1 && modified
    {
      ghost var was := doc.Lines();
      assert doc.len[..doc.count][cy - 1] == |was[cy - 1]| && doc.len[..doc.count][cy] == |was[cy]|;
      var pl, cl := doc.len[cy - 1], doc.len[cy];
      if pl + cl >= MAX_LINE {
        return;
      }
      JoinRemovesNewline(was, cy - 1);
      JoinDoc(cy - 1);
      cy := cy - 1;
      cx := pl;
      modified := true;
    }

    /** Joining with the line above would pass the line limit. */
    ghost predicate BackspaceTooLong()
      requires doc.Valid()
      reads this, doc, doc.line, doc.len
    {
      doc.count > 0 && Col() == 0 && Row() > 0 && |doc.Lines()[Row() - 1]| + |doc.Lines()[Row()]| >= MAX_LINE
    }

    ghost predicate DeleteTooLong()
      requires doc.Valid()
      reads this, doc, doc.line, doc.len
    {
      && doc.count > 0 && Col() == |doc.Lines()[Row()]| && Row() + 1 < doc.count
      && |doc.Lines()[Row()]| + |doc.Lines()[Row() + 1]| >= MAX_LINE
    }

    method Delete()
      requires Ok()
      modifies this, doc, doc.line, doc.len
      ensures Ok() && (old(doc.count) > 0 ==> InBounds())
      ensures old(Pos()) == |old(Text())| || old(DeleteTooLong()) ==>
                doc.Lines() == old(doc.Lines()) && Pos() == old(Pos()) && modified == old(modified)
      ensures old(Pos()) < |old(Text())| && !old(DeleteTooLong()) ==>
                IsSplice(old(Text()), Text(), old(Pos()), 1, []) && Pos() == old(Pos()) && modified
    {
      ClampCursor();
      if doc.count == 0 {
        assert doc.Lines()[..0] == [];
        return;
      }
      OffsetInText(doc.Lines(), cy, cx);
      assert doc.len[..doc.count][cy] == |doc.Lines()[cy]|;
      if cx < doc.len[cy] {
        EraseRight();
        return;
      }
      if cy >= doc.count - 1 {
        return;
      }
      JoinDown();
    }

    /** Delete at the end of a line above the last. */
    method JoinDown()
      requires Ok() && InBounds() && cx == |doc.Lines()[cy]| && cy < doc.count - 1
      modifies this`modified, doc, doc.line, doc.len
      ensures Ok() && InBounds()
      ensures old(DeleteTooLong()) ==> doc.Lines() == old(doc.Lines()) && Pos() == old(Pos()) && modified == old(modified)
      ensures !old(DeleteTooLong()) ==> IsSplice(old(Text()), Text(), old(Pos()), 1, []) && Pos() == old(Pos()) && modified
    {
      ghost var was := doc.Lines();
      assert doc.len[..doc.count][cy + 1] == |was[cy + 1]| && doc.len[..doc.count][cy] == |was[cy]|;
      var nl, pl := doc.len[cy + 1], doc.len[cy];
      if pl + nl >= MAX_LINE {
        return;
      }
      JoinRemovesNewline(was, cy);
      JoinDoc(cy);
      modified := true;
    }

    method MoveLeft()
      requires Ok() && InBounds()
      modifies this`cx, this`cy
      ensures InBounds()
      ensures Pos() == if old(Pos()) == 0 then 0 else old(Pos()) - 1
    {
      OffsetInText(doc.Lines(), cy, cx);
      if cx > 0 {
        cx := cx - 1;
      } else if cy > 0 {
        NextLine(doc.Lines(), cy - 1);
        cy := cy - 1;
        assert doc.len[..doc.count][cy] == |doc.Lines()[cy]|;
        cx := doc.len[cy];
      }
    }

    method MoveRight()
      requires Ok() && InBounds()
      modifies this`cx, this`cy
      ensures InBounds()
      ensures Pos() == if old(Pos()) == |Text()| then old(Pos()) else old(Pos()) + 1
    {
      OffsetInText(doc.Lines(), cy, cx);
      assert doc.len[..doc.count][cy] == |doc.Lines()[cy]|;
      if cx < doc.len[cy] {
        cx := cx + 1;
      } else if cy < doc.count - 1 {
        NextLine(doc.Lines(), cy);
        cy := cy + 1;
        cx := 0;
      }
    }

    method MoveVertical(dir: int)
      requires Ok() && InBounds()
      modifies this`cx, this`cy
      ensures InBounds()
      ensures cy == Clamp(old(cy) + dir, doc.count - 1) && cx == Clamp(old(cx), |doc.Lines()[cy]|)
      ensures 0 <= old(cy) + dir < doc.count ==> cy == old(cy) + dir
      ensures old(cx) <= |doc.Lines()[cy]| ==> cx == old(cx)
      ensures old(cx) > |doc.Lines()[cy]| ==> cx == |doc.Lines()[cy]|
    {
      cy := cy + dir;
      ClampCursor();
    }

    method CutDoc(y: nat) returns (cutBuf: Line)
      requires Ok() && y < doc.count
      modifies doc, doc.line, doc.len
      ensures Ok() && doc.count > 0 && '\n' !in cutBuf && cutBuf == old(doc.Lines())[y]
      ensures doc.Lines() == if old(doc.count) == 1 then [[]] else old(doc.Lines())[..y] + old(doc.Lines())[y + 1..]
    {
      cutBuf := doc.line[y];
      assert cutBuf == doc.Lines()[y];
      doc.Delete(y);
      if doc.count == 0 {
        var _ := doc.Insert(0, []);
        assert doc.Lines() == [[]];
      }
    }

    /** The line the clamped cursor is on goes, and a document never ends up without one; an empty document stays. */
    method CutLine() returns (cutBuf: Line)
      requires Ok()
      modifies this, doc, doc.line, doc.len
      ensures Ok() && '\n' !in cutBuf
      ensures old(doc.count) == 0 ==> cutBuf == [] && doc.Lines() == [] && modified == old(modified)
      ensures old(doc.count) > 0 ==> InBounds() && cx == 0 && modified && cutBuf == old(doc.Lines())[old(Row())]
      ensures old(doc.count) > 0 ==>
                doc.Lines() == if old(doc.count) == 1 then [[]] else old(doc.Lines())[..old(Row())] + old(doc.Lines())[old(Row()) + 1..]
    {
      ClampCursor();
      if doc.count == 0 {
        return [];
      }
      cutBuf := CutDoc(cy);
      ClampCursor();
      cx := 0;
      modified := true;
    }

    /** A cut line is put back one character at a time, for as long as there is room. */
    method Paste(cutBuf: Line) returns (ghost n: nat)
      requires Ok() && '\n' !in cutBuf
      modifies this, doc, doc.line, doc.len
      ensures Ok() && (cutBuf != [] ==> InBounds())
      ensures n <= |cutBuf|
      ensures IsSplice(old(Text()), Text(), old(Pos()), 0, cutBuf[..n]) && Pos() == old(Pos()) + n
      ensures n < |cutBuf| ==> !HasRoom()
    {
      n := 0;
      ghost var text, at := Text(), Pos();
      BeginPaste(cutBuf);
      for i := 0 to |cutBuf|
        invariant 0 <= n <= i <= |cutBuf| && Pasted(text, at, cutBuf, n) && (i > 0 ==> InBounds()) && (n < i ==> !HasRoom())
        invariant (doc.line == old(doc.line) || fresh(doc.line)) && (doc.len == old(doc.len) || fresh(doc.len))
      {
        n := PasteOne(cutBuf[i], text, at, cutBuf, n);
      }
    }

    method BeginPaste(ghost s: Line)
      requires Ok()
      modifies this`cx, this`cy
      ensures old(Pos()) <= |old(Text())| && Pasted(old(Text()), old(Pos()), s, 0)
    {
      ClampCursor();
      PosInText(doc.Lines(), cx, cy);
      NothingPasted(Text(), Pos(), s);
    }

    /** The first `n` characters of `s` have gone into `text` at `at`. */
    ghost predicate Pasted(text: seq<char>, at: nat, s: Line, n: nat)
      requires n <= |s| && at <= |text|
      reads this, doc, doc.line, doc.len
    {
      Ok() && Text() == Splice(text, at, 0, s[..n]) && Pos() == at + n
    }

    method PasteOne(ch: char, ghost text: seq<char>, ghost at: nat, ghost s: Line, ghost n: nat) returns (ghost m: nat)
      requires n < |s| && at <= |text| && '\n' !in s && ch in s && Pasted(text, at, s, n) && (HasRoom() ==> ch == s[n])
      modifies this, doc, doc.line, doc.len
      ensures (doc.line == old(doc.line) || fresh(doc.line)) && (doc.len == old(doc.len) || fresh(doc.len))
      ensures m == (if old(HasRoom()) then n + 1 else n) && Pasted(text, at, s, m) && InBounds() && (!old(HasRoom()) ==> !HasRoom())
    {
      ghost var room := HasRoom();
      SpliceMore(text, at, s, n);
      InsertChar(ch);
      m := if room then n + 1 else n;
    }
  }

  lemma NothingPasted(text: seq<char>, at: nat, s: Line)
    requires at <= |text|
    ensures text == Splice(text, at, 0, s[..0])
  {
  }

  /** A document without lines and one with an empty line are the same text. */
  lemma FirstLine(lines: seq<Line>)
    ensures lines == [] ==> Flat([[]]) == Flat(lines) && Total([[]]) == Total(lines)
    ensures lines == [] ==> Offset([[]], 0, 0) == Offset(lines, 0, 0) && NewlineAtLimit(lines, 0, 0) == []
  {
    var one: seq<Line> := [[]];
    assert one[1..] == [] && one[..0] == [] && lines[..0] == [];
    assert Flat(one) == [] + Preceded(one[1..]);
    assert Total(one) == 0 + Total(one[1..]);
  }

  lemma SplitByInsert(was: seq<Line>, y: nat, x: nat)
    requires y < |was| && x <= |was[y]|
    ensures var cut := was[y := was[y][..x]];
            cut[..y + 1] + [was[y][x..]] + cut[y + 1..] == SplitLine(was, y, x)
  {
  }

  lemma CutLineOk(was: seq<Line>, y: nat, x: nat)
    requires y < |was| && x <= |was[y]| && NoNewlines(was)
    ensures NoNewlines(was[y := was[y][..x]])
    ensures Offset(was[y := was[y][..x]], y, x) == Offset(was, y, x)
  {
    assert was[y := was[y][..x]][..y] == was[..y];
  }

  lemma JoinByDelete(was: seq<Line>, y: nat)
    requires y + 1 < |was|
    ensures var joined := was[y := was[y] + was[y + 1]];
            joined[..y + 1] + joined[y + 2..] == JoinLines(was, y)
  {
  }

  lemma PosInText(lines: seq<Line>, cx: int, cy: int)
    ensures Offset(lines, RowAt(lines, cy), ColAt(lines, cx, cy)) <= |Flat(lines)|
  {
    if lines == [] {
      assert lines[..0] == [];
    } else {
      OffsetInText(lines, RowAt(lines, cy), ColAt(lines, cx, cy));
    }
  }

  lemma SpliceMore(text: seq<char>, at: nat, s: seq<char>, n: nat)
    requires at <= |text| && n < |s|
    ensures Splice(Splice(text, at, 0, s[..n]), at + n, 0, [s[n]]) == Splice(text, at, 0, s[..n + 1])
  {
  }

  /** The text a refused newline leaves behind: the rest of the cursor's line is missing. */
  function NewlineAtLimit(lines: seq<Line>, y: nat, x: nat): seq<char>
    requires lines != [] ==> y < |lines| && x <= |lines[y]|
  {
    if lines == [] then [] else Flat(lines[y := lines[y][..x]])
  }

  /** So a refused newline keeps the text exactly when the cursor stands at the end of its line. */
  lemma NewlineAtLimitKeepsText(lines: seq<Line>, y: nat, x: nat)
    requires y < |lines| && x <= |lines[y]|
    ensures NewlineAtLimit(lines, y, x) == Flat(lines) <==> x == |lines[y]|
    ensures |NewlineAtLimit(lines, y, x)| == |Flat(lines)| - (|lines[y]| - x)
  {
    var cut := lines[y := lines[y][..x]];
    FlatSplit(lines, y);
    FlatSplit(cut, y);
    assert cut[..y] == lines[..y] && cut[y + 1..] == lines[y + 1..];
    if x == |lines[y]| {
      assert lines[y][..x] == lines[y];
      assert cut == lines;
    }
  }

  method FullDocument() returns (editor: Editor)
    ensures fresh(editor) && fresh(editor.doc) && fresh(editor.doc.line) && fresh(editor.doc.len)
    ensures editor.Ok() && editor.doc.count == MAX_LINES && editor.doc.Lines()[0] == "ab"
  {
    editor := new Editor();
    var i := 0;
    while i < MAX_LINES
      invariant i <= MAX_LINES && fresh(editor) && fresh(editor.doc) && fresh(editor.doc.line) && fresh(editor.doc.len)
      invariant editor.Ok() && editor.doc.count == i && (i > 0 ==> editor.doc.Lines()[0] == "ab")
    {
      ghost var was := editor.doc.Lines();
      var ok := editor.doc.Insert(i, "ab");
      assert editor.doc.Lines() == was + ["ab"];
      i := i + 1;
    }
  }

  /** In a full document, with the cursor in the middle of its first line, the newline key takes text away. */
  method NewlineLosesText() returns (editor: Editor, ghost before: seq<char>)
    ensures editor.Ok() && editor.doc.count == MAX_LINES && |editor.Text()| < |before|
  {
    editor := FullDocument();
    editor.cy, editor.cx := 0, 1;
    before := editor.Text();
    NewlineAtLimitKeepsText(editor.doc.Lines(), 0, 1);
    editor.InsertNewline();
  }
}
