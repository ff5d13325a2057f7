/**
 The editor's document: an array of lines and an array of their lengths, both grown by
 doubling and shifted in place, and how many entries of them are in use.
 */
module EditorDoc {
  import opened EditorText

  const MAX_LINES := 4096
  const MAX_LINE := 1024
  const MAX_TOTAL := 256 * 1024
  const FIRST_CAP := 64

  function Total(lines: seq<Line>): nat {
    if lines == [] then 0 else |lines[0]| + Total(lines[1..])
  }

  lemma {:induction false} TotalAppend(lines: seq<Line>, line: Line)
    ensures Total(lines + [line]) == Total(lines) + |line|
  {
    if lines == [] {
      assert lines + [line] == [line];
      assert Total([line][1..]) == 0;
    } else {
      TotalAppend(lines[1..], line);
      assert (lines + [line])[1..] == lines[1..] + [line];
    }
  }

  /** The entries from `y` on move up by one. */
  method ShiftUp<T>(a: array<T>, y: nat, count: nat)
    requires y <= count < a.Length
    modifies a
    ensures a[..y] == old(a[..y]) && a[y + 1..count + 1] == old(a[y..count])
  {
    var i := count;
    while i > y
      invariant y <= i <= count
      invariant forall j :: 0 <= j <= i ==> a[j] == old(a[j])
      invariant forall j :: i < j <= count ==> a[j] == old(a[j - 1])
    {
      a[i] := a[i - 1];
      i := i - 1;
    }
  }

  /** The entries after `y` move down by one. */
  method ShiftDown<T>(a: array<T>, y: nat, count: nat)
    requires y < count <= a.Length
    modifies a
    ensures a[..y] == old(a[..y]) && a[y..count - 1] == old(a[y + 1..count])
  {
    var i := y;
    while i < count - 1
      invariant y <= i <= count - 1
      invariant forall j :: 0 <= j < y || i <= j < count ==> a[j] == old(a[j])
      invariant forall j :: y <= j < i ==> a[j] == old(a[j + 1])
    {
      a[i] := a[i + 1];
      i := i + 1;
    }
  }

  /** The table with one more entry at `y`. */
  method InsertAt<T>(a: array<T>, y: nat, count: nat, x: T)
    requires y <= count < a.Length
    modifies a
    ensures a[..count + 1] == old(a[..count])[..y] + [x] + old(a[..count])[y..]
  {
    ghost var was := a[..count];
    ShiftUp(a, y, count);
    a[y] := x;
    assert a[..count + 1] == a[..y] + [x] + a[y + 1..count + 1];
    assert was[..y] == a[..y] && was[y..] == a[y + 1..count + 1];
  }

  /** The table without entry `y`. */
  method DeleteAt<T>(a: array<T>, y: nat, count: nat)
    requires y < count <= a.Length
    modifies a
    ensures a[..count - 1] == old(a[..count])[..y] + old(a[..count])[y + 1..]
  {
    ghost var was := a[..count];
    ShiftDown(a, y, count);
    assert a[..count - 1] == a[..y] + a[y..count - 1];
    assert was[..y] == a[..y] && was[y + 1..] == a[y..count - 1];
  }

  ghost predicate Lengths(lens: seq<nat>, lines: seq<Line>) {
    |lens| == |lines| && forall i :: 0 <= i < |lens| ==> lens[i] == |lines[i]|
  }

  /** realloc: a longer array with the same entries in front. */
  method Grown<T(0)>(a: array<T>, size: nat) returns (b: array<T>)
    requires a.Length <= size
    ensures fresh(b) && b.Length == size && b[..a.Length] == a[..]
  {
    b := new T[size];
    var i := 0;
    while i < a.Length
      invariant i <= a.Length && b[..i] == a[..i]
    {
      b[i] := a[i];
      i := i + 1;
    }
  }

  class Document {
    var line: array<Line>
    var len: array<nat>
    var count: nat

    ghost predicate Valid()
      reads this, line, len
    {
      && 0 < line.Length == len.Length && count <= line.Length && count <= MAX_LINES
      && Lengths(len[..count], line[..count])
    }

    ghost function Lines(): (s: seq<Line>)
      requires Valid()
      reads this, line, len
      ensures |s| == count
    {
      line[..count]
    }

    constructor ()
      ensures Valid() && Lines() == [] && fresh(line) && fresh(len)
    {
      line, len, count := new Line[FIRST_CAP], new nat[FIRST_CAP], 0;
    }

    method Sum() returns (n: nat)
      requires Valid()
      ensures n == Total(Lines())
    {
      n := 0;
      ghost var lines := Lines();
      for i := 0 to count
        invariant n == Total(lines[..i])
      {
        TotalAppend(lines[..i], lines[i]);
        assert lines[..i + 1] == lines[..i] + [lines[i]];
        assert len[i] == len[..count][i];
        n := n + len[i];
      }
      assert lines[..count] == lines;
    }

    method Grow()
      requires Valid() && count == line.Length
      modifies this
      ensures Valid() && Lines() == old(Lines()) && count < line.Length && fresh(line) && fresh(len)
    {
      var cap := 2 * line.Length;
      line := Grown(line, cap);
      len := Grown(len, cap);
      assert line[..count] == old(line[..count]) && len[..count] == old(len[..count]);
    }

    /** Refused only when the document has all the lines it may have. */
    method Insert(y: nat, s: Line) returns (ok: bool)
      requires Valid() && y <= count
      modifies this, line, len
      ensures Valid() && (line == old(line) || fresh(line)) && (len == old(len) || fresh(len))
      ensures ok == (old(count) < MAX_LINES)
      ensures Lines() == if ok then old(Lines())[..y] + [s] + old(Lines())[y..] else old(Lines())
    {
      if count >= MAX_LINES {
        return false;
      }
      if count >= line.Length {
        Grow();
      }
      InsertInPlace(y, s);
      ok := true;
    }

    method InsertInPlace(y: nat, s: Line)
      requires Valid() && y <= count < line.Length && count < MAX_LINES
      modifies this`count, line, len
      ensures Valid() && Lines() == old(Lines())[..y] + [s] + old(Lines())[y..]
    {
      InsertAt(line, y, count, s);
      InsertAt(len, y, count, |s|);
      count := count + 1;
    }

    method Delete(y: nat)
      requires Valid() && y < count
      modifies this`count, line, len
      ensures Valid() && Lines() == old(Lines())[..y] + old(Lines())[y + 1..]
    {
      DeleteAt(line, y, count);
      DeleteAt(len, y, count);
      count := count - 1;
    }

    /** The text of one line replaced. */
    method SetLine(y: nat, s: Line)
      requires Valid() && y < count
      modifies line, len
      ensures Valid() && Lines() == old(Lines())[y := s]
    {
      line[y], len[y] := s, |s|;
      assert line[..count] == old(line[..count])[y := s] && len[..count] == old(len[..count])[y := |s|];
    }
  }
}
