/** The editor's file: how it is read into lines, how it is written, and when the two undo each other. */
module EditorFile {
  import opened Collections
  import opened EditorText
  import opened EditorDoc

  datatype Load = Loaded(lines: seq<Line>) | TooLarge | TooManyLines

  // ----- What loading means -----

  function FirstNewline(data: seq<char>): (k: nat)
    ensures k <= |data|
    ensures forall j :: 0 <= j < k ==> data[j] != '\n'
    ensures k < |data| ==> data[k] == '\n'
  {
    if data == [] || data[0] == '\n' then 0
    else
      var k := FirstNewline(data[1..]);
      assert forall j :: 1 <= j < k + 1 ==> data[j] == data[1..][j - 1];
      k + 1
  }

  /** The first newline is the one with none before it. */
  lemma FirstNewlineIs(data: seq<char>, k: nat)
    requires k <= |data| && (forall j :: 0 <= j < k ==> data[j] != '\n')
    requires k < |data| ==> data[k] == '\n'
    ensures FirstNewline(data) == k
  {
  }

  /** The lines of a file; what follows the last newline is a line only if it is not empty. */
  function RawLines(data: seq<char>): seq<Line>
    decreases |data|
  {
    if data == [] then []
    else
      var k := FirstNewline(data);
      [data[..k]] + if k < |data| then RawLines(data[k + 1..]) else []
  }

  predicate EndsInCr(line: Line) {
    line != [] && line[|line| - 1] == '\r'
  }

  function StripCr(line: Line): Line {
    if EndsInCr(line) then line[..|line| - 1] else line
  }

  function StripAll(lines: seq<Line>): (r: seq<Line>)
    ensures |r| == |lines|
  {
    if lines == [] then [] else [StripCr(lines[0])] + StripAll(lines[1..])
  }

  lemma {:induction false} StripAllAt(lines: seq<Line>, i: nat)
    requires i < |lines|
    ensures StripAll(lines)[i] == StripCr(lines[i])
  {
    if i > 0 {
      StripAllAt(lines[1..], i - 1);
    }
  }

  /** The lines a file loads as: each without its newline and without a CR before that. */
  function Lines(data: seq<char>): seq<Line>
    decreases |data|
  {
    if data == [] then []
    else
      var k := FirstNewline(data);
      [StripCr(data[..k])] + if k < |data| then Lines(data[k + 1..]) else []
  }

  lemma {:induction false} LinesAreStripped(data: seq<char>)
    ensures Lines(data) == StripAll(RawLines(data))
    decreases |data|
  {
    if data != [] {
      var k := FirstNewline(data);
      var raw := RawLines(data);
      assert raw[0] == data[..k];
      if k < |data| {
        LinesAreStripped(data[k + 1..]);
        assert raw[1..] == RawLines(data[k + 1..]);
      } else {
        assert raw[1..] == [];
      }
    }
  }

  function LoadResult(file: seq<char>): Load {
    if |file| >= MAX_TOTAL then TooLarge
    else if |Lines(file)| > MAX_LINES then TooManyLines
    else Loaded(if file == [] then [[]] else Lines(file))
  }

  // ----- The code -----

  predicate ReadAmount(got: nat, room: nat, left: nat) {
    1 <= got <= room && got <= left
  }

  /** A read brings any amount that fits, and nothing only at the end of the file. */
  method Fread(room: nat, left: nat) returns (got: nat)
    requires room > 0
    ensures if left == 0 then got == 0 else ReadAmount(got, room, left)
  {
    if left == 0 {
      return 0;
    }
    assert ReadAmount(1, room, left);
    got :| ReadAmount(got, room, left);
  }

  /** The whole file into a buffer that doubles up to the limit; each read brings any amount. */
  method ReadAll(file: seq<char>) returns (ok: bool, data: seq<char>)
    ensures ok <==> |file| < MAX_TOTAL
    ensures ok ==> data == file
  {
    var cap, len := 8192, 0;
    while true
      invariant 0 <= len <= |file| && len <= cap && 8192 <= cap <= MAX_TOTAL
      decreases |file| - len
    {
      if len == cap {
        if cap >= MAX_TOTAL {
          return false, [];
        }
        cap := cap * 2;
        if cap > MAX_TOTAL {
          cap := MAX_TOTAL;
        }
      }
      var got := Fread(cap - len, |file| - len);
      if got == 0 {
        break;
      }
      len := len + got;
    }
    return true, file[..len];
  }

  /** What scanning on from `i` adds to `lines`, the current line having begun at `start`. */
  function Scan(data: seq<char>, start: nat, i: nat, lines: seq<Line>): seq<Line>
    requires start <= i <= |data|
    decreases |data| - i
  {
    if i == |data| then if start < |data| then lines + [WithoutCr(data, start, |data|)] else lines
    else if data[i] == '\n' then Scan(data, i + 1, i + 1, lines + [WithoutCr(data, start, i)])
    else Scan(data, start, i + 1, lines)
  }

  lemma {:induction false} ScanFindsLines(data: seq<char>, start: nat, i: nat, lines: seq<Line>)
    requires start <= i <= |data| && (forall j :: start <= j < i ==> data[j] != '\n')
    ensures Scan(data, start, i, lines) == lines + Lines(data[start..])
    decreases |data| - i
  {
    if i == |data| {
      LastLineOf(data, start, lines);
    } else if data[i] == '\n' {
      var more := lines + [WithoutCr(data, start, i)];
      assert Scan(data, start, i, lines) == Scan(data, i + 1, i + 1, more);
      ScanFindsLines(data, i + 1, i + 1, more);
      assert more + Lines(data[i + 1..]) == lines + Lines(data[start..]) by {
        NextLineOf(data, start, i, lines);
      }
    } else {
      assert Scan(data, start, i, lines) == Scan(data, start, i + 1, lines);
      ScanFindsLines(data, start, i + 1, lines);
    }
  }

  lemma {:induction false} ScanOnlyAdds(data: seq<char>, start: nat, i: nat, lines: seq<Line>)
    requires start <= i <= |data|
    ensures |lines| <= |Scan(data, start, i, lines)|
    decreases |data| - i
  {
    if i < |data| {
      if data[i] == '\n' {
        ScanOnlyAdds(data, i + 1, i + 1, lines + [WithoutCr(data, start, i)]);
      } else {
        ScanOnlyAdds(data, start, i + 1, lines);
      }
    }
  }

  /** The data cut into lines, given up when there are too many. */
  method SplitLines(data: seq<char>) returns (lines: seq<Line>, ok: bool)
    ensures ok <==> |Lines(data)| <= MAX_LINES
    ensures ok ==> lines == Lines(data)
  {
    lines, ok := [], true;
    var start := 0;
    ghost var all := Scan(data, 0, 0, []);
    AllLines(data);
    for i := 0 to |data|
      invariant 0 <= start <= i && |lines| <= MAX_LINES
      invariant Scan(data, start, i, lines) == all
    {
      if data[i] == '\n' {
        if |lines| >= MAX_LINES {
          ScanOnlyAdds(data, i + 1, i + 1, lines + [WithoutCr(data, start, i)]);
          return lines, false;
        }
        lines := lines + [WithoutCr(data, start, i)];
        start := i + 1;
      }
    }
    if start < |data| {
      if |lines| >= MAX_LINES {
        return lines, false;
      }
      lines := lines + [WithoutCr(data, start, |data|)];
    }
  }

  lemma AllLines(data: seq<char>)
    ensures Scan(data, 0, 0, []) == Lines(data)
  {
    ScanFindsLines(data, 0, 0, []);
    assert data[0..] == data;
    assert [] + Lines(data) == Lines(data);
  }

  method LoadFile(file: seq<char>) returns (r: Load)
    ensures r == LoadResult(file)
  {
    var ok, data := ReadAll(file);
    if !ok {
      return TooLarge;
    }
    var lines, fits := SplitLines(data);
    if !fits {
      return TooManyLines;
    }
    NoLinesIffEmpty(data);
    if lines == [] {
      lines := [[]];
    }
    r := Loaded(lines);
  }

  /** The bytes from `start` up to `end`, one less when the last of them is a CR. */
  function WithoutCr(data: seq<char>, start: nat, end: nat): (line: Line)
    requires start <= end <= |data|
    ensures line == StripCr(data[start..end])
  {
    var n := end - start;
    data[start..start + if n > 0 && data[end - 1] == '\r' then n - 1 else n]
  }

  /** The loop found the newline that ends the line begun at `start`. */
  lemma NextLineOf(data: seq<char>, start: nat, i: nat, lines: seq<Line>)
    requires start <= i < |data| && data[i] == '\n' && (forall j :: start <= j < i ==> data[j] != '\n')
    ensures Lines(data[start..]) != []
    ensures (lines + [WithoutCr(data, start, i)]) + Lines(data[i + 1..]) == lines + Lines(data[start..])
  {
    var rest := data[start..];
    var k := i - start;
    FirstNewlineIs(rest, k);
    assert rest[..k] == data[start..i] && rest[k + 1..] == data[i + 1..];
    Associates(lines, [StripCr(data[start..i])], Lines(data[i + 1..]));
  }

  /** What is left after the last newline. */
  lemma LastLineOf(data: seq<char>, start: nat, lines: seq<Line>)
    requires start <= |data| && (forall j :: start <= j < |data| ==> data[j] != '\n')
    ensures lines + Lines(data[start..])
         == if start < |data| then lines + [WithoutCr(data, start, |data|)] else lines
  {
    var rest := data[start..];
    FirstNewlineIs(rest, |rest|);
    assert rest[..|rest|] == data[start..|data|];
    assert rest == [] ==> lines + Lines(rest) == lines;
  }

  lemma NoLinesIffEmpty(data: seq<char>)
    ensures Lines(data) == [] <==> data == []
  {
  }

  method SaveFile(lines: seq<Line>) returns (file: seq<char>, bytes: nat)
    ensures file == Terminated(lines)
    ensures bytes == |file|
  {
    file, bytes := [], 0;
    for i := 0 to |lines|
      invariant file == Terminated(lines[..i]) && bytes == |file|
    {
      TerminatedAppend(lines[..i], [lines[i]]);
      TerminatedOne(lines[i]);
      assert lines[..i + 1] == lines[..i] + [lines[i]];
      if |lines[i]| > 0 {
        file := file + lines[i];
      }
      file := file + ['\n'];
      bytes := bytes + |lines[i]| + 1;
    }
    assert lines[..|lines|] == lines;
  }

  // ----- Loading what was saved -----

  /** A line and its newline in front of a file are a line in front of its lines. */
  lemma RawCons(line: Line, rest: seq<char>)
    requires '\n' !in line
    ensures RawLines(line + ['\n'] + rest) == [line] + RawLines(rest)
  {
    var data := line + ['\n'] + rest;
    FirstNewlineIs(data, |line|);
    assert data[..|line|] == line && data[|line| + 1..] == rest;
  }

  lemma {:induction false} RawLinesOfTerminated(lines: seq<Line>)
    requires NoNewlines(lines)
    ensures RawLines(Terminated(lines)) == lines
  {
    if lines != [] {
      RawLinesOfTerminated(lines[1..]);
      RawCons(lines[0], Terminated(lines[1..]));
      assert [lines[0]] + lines[1..] == lines;
    }
  }

  /** A document comes back line for line exactly when it is small enough and no line ends in CR. */
  lemma SaveThenLoad(lines: seq<Line>)
    requires NoNewlines(lines) && 1 <= |lines| <= MAX_LINES
    ensures LoadResult(Terminated(lines)) == Loaded(lines)
       <==> |Terminated(lines)| < MAX_TOTAL && forall i :: 0 <= i < |lines| ==> !EndsInCr(lines[i])
  {
    RawLinesOfTerminated(lines);
    LinesAreStripped(Terminated(lines));
    if i :| 0 <= i < |lines| && EndsInCr(lines[i]) {
      StripAllAt(lines, i);
      assert |StripAll(lines)[i]| < |lines[i]|;
    } else {
      StripShortens(lines);
    }
  }

  // ----- Saving what was loaded -----

  lemma {:induction false} TerminatedOfRawLines(data: seq<char>)
    requires data != [] ==> data[|data| - 1] == '\n'
    ensures Terminated(RawLines(data)) == data
    decreases |data|
  {
    if data != [] {
      var k := FirstNewline(data);
      var (line, rest) := (data[..k], data[k + 1..]);
      assert data == line + ['\n'] + rest;
      TerminatedOfRawLines(rest);
      RawCons(line, rest);
      TerminatedCons(line, RawLines(rest));
    }
  }

  predicate HasCrLf(file: seq<char>) {
    exists i :: 0 <= i < |file| - 1 && file[i] == '\r' && file[i + 1] == '\n'
  }

  lemma {:induction false} CrLfInLines(lines: seq<Line>)
    requires NoNewlines(lines)
    ensures HasCrLf(Terminated(lines)) <==> exists i :: 0 <= i < |lines| && EndsInCr(lines[i])
  {
    if lines != [] {
      var (first, rest) := (lines[0], lines[1..]);
      CrLfInLines(rest);
      var (data, tail) := (Terminated(lines), Terminated(rest));
      assert data == first + ['\n'] + tail;
      if HasCrLf(data) {
        var i :| 0 <= i < |data| - 1 && data[i] == '\r' && data[i + 1] == '\n';
        if i < |first| {
          assert EndsInCr(lines[0]);
        } else {
          var j := i - |first| - 1;
          assert 0 <= j < |tail| - 1 && tail[j] == '\r' && tail[j + 1] == '\n';
          var m :| 0 <= m < |rest| && EndsInCr(rest[m]);
          assert EndsInCr(lines[m + 1]);
        }
      }
      if m :| 0 <= m < |lines| && EndsInCr(lines[m]) {
        if m == 0 {
          assert data[|first| - 1] == '\r' && data[|first|] == '\n';
        } else {
          assert EndsInCr(rest[m - 1]);
          var j :| 0 <= j < |tail| - 1 && tail[j] == '\r' && tail[j + 1] == '\n';
          assert data[j + |first| + 1] == '\r' && data[j + 1 + |first| + 1] == '\n';
        }
      }
    }
  }

  /** Stripping never lengthens the saved text and shortens it as soon as one line ends in CR. */
  lemma {:induction false} StripShortens(lines: seq<Line>)
    ensures |Terminated(StripAll(lines))| <= |Terminated(lines)|
    ensures (exists i :: 0 <= i < |lines| && EndsInCr(lines[i])) ==>
              |Terminated(StripAll(lines))| < |Terminated(lines)|
    ensures (forall i :: 0 <= i < |lines| ==> !EndsInCr(lines[i])) ==> StripAll(lines) == lines
  {
    if lines != [] {
      StripShortens(lines[1..]);
      assert StripAll(lines)[0] == StripCr(lines[0]) && StripAll(lines)[1..] == StripAll(lines[1..]);
      if i :| 0 <= i < |lines| && EndsInCr(lines[i]) {
        assert i > 0 ==> EndsInCr(lines[1..][i - 1]);
      }
    }
  }

  lemma NoNewlinesCons(line: Line, lines: seq<Line>)
    requires '\n' !in line && NoNewlines(lines)
    ensures NoNewlines([line] + lines)
  {
  }

  lemma {:induction false} RawLinesHaveNoNewlines(data: seq<char>)
    ensures NoNewlines(RawLines(data))
    decreases |data|
  {
    if data != [] {
      var k := FirstNewline(data);
      assert '\n' !in data[..k];
      if k < |data| {
        RawLinesHaveNoNewlines(data[k + 1..]);
        NoNewlinesCons(data[..k], RawLines(data[k + 1..]));
      } else {
        NoNewlinesCons(data[..k], []);
      }
    }
  }

  lemma {:induction false} TerminatedEndsInNewline(lines: seq<Line>)
    requires lines != []
    ensures Terminated(lines) != [] && Terminated(lines)[|Terminated(lines)| - 1] == '\n'
  {
    if |lines| > 1 {
      TerminatedEndsInNewline(lines[1..]);
    }
  }

  /** A file is written back byte for byte exactly when it is newline-terminated text without CR LF. */
  lemma LoadThenSave(file: seq<char>, lines: seq<Line>)
    requires LoadResult(file) == Loaded(lines)
    ensures Terminated(lines) == file <==> file != [] && file[|file| - 1] == '\n' && !HasCrLf(file)
  {
    LinesAreStripped(file);
    NoLinesIffEmpty(file);
    TerminatedEndsInNewline(lines);
    if file != [] && file[|file| - 1] == '\n' {
      TerminatedOfRawLines(file);
      RawLinesHaveNoNewlines(file);
      StrippedIsSame(RawLines(file));
    }
  }

  lemma StrippedIsSame(raw: seq<Line>)
    requires NoNewlines(raw)
    ensures Terminated(StripAll(raw)) == Terminated(raw) <==> !HasCrLf(Terminated(raw))
  {
    CrLfInLines(raw);
    StripShortens(raw);
  }

  /** Two documents with the same flat text are the same document. */
  lemma FlatDeterminesLines(a: seq<Line>, b: seq<Line>)
    requires NoNewlines(a) && NoNewlines(b) && a != [] && b != []
    requires Flat(a) == Flat(b)
    ensures a == b
  {
    FlatThenNewline(a);
    FlatThenNewline(b);
    RawLinesOfTerminated(a);
    RawLinesOfTerminated(b);
  }

  lemma {:induction false} FlatThenNewline(lines: seq<Line>)
    requires lines != []
    ensures Terminated(lines) == Flat(lines) + ['\n']
  {
    if |lines| > 1 {
      FlatThenNewline(lines[1..]);
      assert Preceded(lines[1..]) == ['\n'] + Flat(lines[1..]);
    }
  }
}
