/** A document as lines and as one flat text, and how an edit of the lines edits the text. */
module EditorText {

  type Line = seq<char>

  /** Every line followed by a newline: what saving writes. */
  function Terminated(lines: seq<Line>): seq<char> {
    if lines == [] then [] else lines[0] + ['\n'] + Terminated(lines[1..])
  }

  /** Every line preceded by a newline. */
  function Preceded(lines: seq<Line>): seq<char> {
    if lines == [] then [] else ['\n'] + lines[0] + Preceded(lines[1..])
  }

  /** The flat text: newlines between the lines only. */
  function Flat(lines: seq<Line>): seq<char> {
    if lines == [] then [] else lines[0] + Preceded(lines[1..])
  }

  /** The offset of column `x` of line `y`. */
  function Offset(lines: seq<Line>, y: nat, x: nat): nat
    requires y <= |lines|
  {
    |Terminated(lines[..y])| + x
  }

  ghost predicate NoNewlines(lines: seq<Line>) {
    forall i :: 0 <= i < |lines| ==> '\n' !in lines[i]
  }

  lemma {:induction false} TerminatedAppend(a: seq<Line>, b: seq<Line>)
    ensures Terminated(a + b) == Terminated(a) + Terminated(b)
  {
    if a == [] {
      assert a + b == b;
    } else {
      TerminatedAppend(a[1..], b);
      assert (a + b)[1..] == a[1..] + b;
    }
  }

  lemma {:induction false} PrecededAppend(a: seq<Line>, b: seq<Line>)
    ensures Preceded(a + b) == Preceded(a) + Preceded(b)
  {
    if a == [] {
      assert a + b == b;
    } else {
      PrecededAppend(a[1..], b);
      assert (a + b)[1..] == a[1..] + b;
    }
  }

  /** The text around one line. */
  lemma {:induction false} FlatAt(a: seq<Line>, line: Line, b: seq<Line>)
    ensures Flat(a + [line] + b) == Terminated(a) + line + Preceded(b)
  {
    if a == [] {
      assert a + [line] + b == [line] + b;
      assert ([line] + b)[1..] == b;
    } else {
      FlatAt(a[1..], line, b);
      var whole := a + [line] + b;
      assert whole[0] == a[0] && whole[1..] == a[1..] + [line] + b;
      var (first, rest) := (a[0], Flat(whole[1..]));
      assert Preceded(whole[1..]) == ['\n'] + rest;
      assert first + (['\n'] + rest) == (first + ['\n']) + rest;
      var (t, p) := (Terminated(a[1..]), Preceded(b));
      assert (first + ['\n']) + (t + line + p) == (first + ['\n'] + t) + line + p;
    }
  }

  lemma TerminatedCons(line: Line, rest: seq<Line>)
    ensures Terminated([line] + rest) == line + ['\n'] + Terminated(rest)
  {
    assert ([line] + rest)[1..] == rest;
  }

  lemma TerminatedOne(line: Line)
    ensures Terminated([line]) == line + ['\n']
  {
    assert [line][1..] == [];
    assert Terminated([line]) == line + ['\n'] + Terminated([line][1..]);
  }

  /** A document is split at its cursor: what lies before it, the line, what lies after it. */
  lemma FlatSplit(lines: seq<Line>, y: nat)
    requires y < |lines|
    ensures Flat(lines) == Terminated(lines[..y]) + lines[y] + Preceded(lines[y + 1..])
  {
    assert lines == lines[..y] + [lines[y]] + lines[y + 1..];
    FlatAt(lines[..y], lines[y], lines[y + 1..]);
  }

  // ----- Edits of the lines and of the text -----

  /** The text with `cut` characters at `at` replaced by `mid`. */
  function Splice(text: seq<char>, at: nat, cut: nat, mid: seq<char>): seq<char>
    requires at + cut <= |text|
  {
    text[..at] + mid + text[at + cut..]
  }

  /** The document with `cut` characters of line `y` at column `x` replaced by `mid`. */
  function SpliceLine(lines: seq<Line>, y: nat, x: nat, cut: nat, mid: seq<char>): seq<Line>
    requires y < |lines| && x + cut <= |lines[y]|
  {
    lines[y := lines[y][..x] + mid + lines[y][x + cut..]]
  }

  lemma SpliceLineIsSplice(lines: seq<Line>, y: nat, x: nat, cut: nat, mid: seq<char>)
    requires y < |lines| && x + cut <= |lines[y]|
    ensures Offset(lines, y, x) + cut <= |Flat(lines)|
    ensures Flat(SpliceLine(lines, y, x, cut, mid)) == Splice(Flat(lines), Offset(lines, y, x), cut, mid)
    ensures Offset(SpliceLine(lines, y, x, cut, mid), y, x + |mid|) == Offset(lines, y, x) + |mid|
  {
    var line := lines[y];
    var after := SpliceLine(lines, y, x, cut, mid);
    var (pre, post) := (Terminated(lines[..y]), Preceded(lines[y + 1..]));
    FlatSplit(lines, y);
    FlatSplit(after, y);
    assert after[..y] == lines[..y] && after[y + 1..] == lines[y + 1..];
    var text := Flat(lines);
    var at := |pre| + x;
    assert text[..at] == pre + line[..x];
    assert text[at + cut..] == line[x + cut..] + post;
  }

  lemma SpliceHasNoNewlines(lines: seq<Line>, y: nat, x: nat, cut: nat, mid: seq<char>)
    requires y < |lines| && x + cut <= |lines[y]| && NoNewlines(lines) && '\n' !in mid
    ensures NoNewlines(SpliceLine(lines, y, x, cut, mid))
  {
    assert '\n' !in lines[y][..x] && '\n' !in lines[y][x + cut..];
  }

  /** The same document with line `y` cut in two at column `x`. */
  function SplitLine(lines: seq<Line>, y: nat, x: nat): seq<Line>
    requires y < |lines| && x <= |lines[y]|
  {
    lines[..y] + [lines[y][..x], lines[y][x..]] + lines[y + 1..]
  }

  /** The same document with line `y + 1` put behind line `y`. */
  function JoinLines(lines: seq<Line>, y: nat): seq<Line>
    requires y + 1 < |lines|
  {
    lines[..y] + [lines[y] + lines[y + 1]] + lines[y + 2..]
  }

  lemma SplitIsNewline(lines: seq<Line>, y: nat, x: nat)
    requires y < |lines| && x <= |lines[y]|
    ensures Offset(lines, y, x) <= |Flat(lines)|
    ensures Flat(SplitLine(lines, y, x)) == Splice(Flat(lines), Offset(lines, y, x), 0, ['\n'])
    ensures Offset(SplitLine(lines, y, x), y + 1, 0) == Offset(lines, y, x) + 1
  {
    var (a, line, b) := (lines[..y], lines[y], lines[y + 1..]);
    var (l, r) := (line[..x], line[x..]);
    var (p, q) := (Terminated(a) + l, r + Preceded(b));
    assert Flat(lines) == p + q by {
      FlatSplit(lines, y);
      assert line == l + r;
      assert Terminated(a) + (l + r) + Preceded(b) == p + q;
    }
    var split := SplitLine(lines, y, x);
    assert Terminated(a + [l]) == p + ['\n'] by {
      TerminatedAppend(a, [l]);
      TerminatedOne(l);
    }
    assert split[..y + 1] == a + [l];
    assert Flat(split) == p + ['\n'] + q by {
      assert split == (a + [l]) + [r] + b;
      FlatAt(a + [l], r, b);
    }
    SpliceBetween(p, q, ['\n']);
  }

  lemma SpliceBetween(p: seq<char>, q: seq<char>, mid: seq<char>)
    ensures Splice(p + q, |p|, 0, mid) == p + mid + q
  {
  }

  lemma SplitHasNoNewlines(lines: seq<Line>, y: nat, x: nat)
    requires y < |lines| && x <= |lines[y]| && NoNewlines(lines)
    ensures NoNewlines(SplitLine(lines, y, x))
  {
    var split := SplitLine(lines, y, x);
    forall i | 0 <= i < |split| ensures '\n' !in split[i] {
      assert split[i] == if i < y then lines[i] else if i == y then lines[y][..x]
                         else if i == y + 1 then lines[y][x..] else lines[i - 1];
    }
  }

  lemma JoinUndoesSplit(lines: seq<Line>, y: nat, x: nat)
    requires y < |lines| && x <= |lines[y]|
    ensures JoinLines(SplitLine(lines, y, x), y) == lines
  {
    assert lines[y][..x] + lines[y][x..] == lines[y];
  }

  lemma SplitUndoesJoin(lines: seq<Line>, y: nat)
    requires y + 1 < |lines|
    ensures SplitLine(JoinLines(lines, y), y, |lines[y]|) == lines
  {
  }

  /** Joining two lines removes the newline between them and nothing else. */
  lemma JoinRemovesNewline(lines: seq<Line>, y: nat)
    requires y + 1 < |lines|
    ensures Offset(lines, y, |lines[y]|) < |Flat(lines)| && Flat(lines)[Offset(lines, y, |lines[y]|)] == '\n'
    ensures Flat(JoinLines(lines, y)) == Splice(Flat(lines), Offset(lines, y, |lines[y]|), 1, [])
    ensures Offset(JoinLines(lines, y), y, |lines[y]|) == Offset(lines, y, |lines[y]|)
    ensures Offset(lines, y + 1, 0) == Offset(lines, y, |lines[y]|) + 1
    ensures NoNewlines(lines) ==> NoNewlines(JoinLines(lines, y))
  {
    var joined := JoinLines(lines, y);
    SplitUndoesJoin(lines, y);
    SplitIsNewline(joined, y, |lines[y]|);
    assert joined[..y] == lines[..y];
  }

  lemma OffsetInText(lines: seq<Line>, y: nat, x: nat)
    requires y < |lines| && x <= |lines[y]|
    ensures Offset(lines, y, x) <= |Flat(lines)|
    ensures Offset(lines, y, x) == 0 <==> y == 0 && x == 0
    ensures Offset(lines, y, x) == |Flat(lines)| <==> y == |lines| - 1 && x == |lines[y]|
  {
    FlatSplit(lines, y);
  }

  lemma NextLine(lines: seq<Line>, y: nat)
    requires y + 1 < |lines|
    ensures Offset(lines, y + 1, 0) == Offset(lines, y, |lines[y]|) + 1
  {
    JoinRemovesNewline(lines, y);
  }
}
