/**
 A file of one record a line, read through a fixed buffer and rewritten whole. What a
 record is does not matter here: only that its line reads back.
 */
module LineFile {
  import opened LibC
  import opened Collections

  const LINE_MAX_LEN := 256

  predicate Skipped(line: string) {
    line != [] && (line[0] == '#' || line[0] == '\n' || line[0] == '\r')
  }

  /** The next line of a file as a record, if it is one, and the rest of the file. */
  function NextRecord<R>(parse: string -> Option<R>, file: string): (r: (Option<R>, string))
    requires file != []
    ensures |r.1| < |file|
  {
    var (line, rest) := Fgets(file, LINE_MAX_LEN);
    (if Skipped(line) then None else parse(line), rest)
  }

  /** The records of a file, at most `max` of them; a line that does not parse is dropped. */
  function Loaded<R>(parse: string -> Option<R>, file: string, max: nat): (recs: seq<R>)
    ensures |recs| <= max
    decreases |file|
  {
    if max == 0 || file == [] then []
    else
      var (rec, rest) := NextRecord(parse, file);
      if rec.None? then Loaded(parse, rest, max) else [rec.value] + Loaded(parse, rest, max - 1)
  }

  function Stored<R>(format: R -> string, recs: seq<R>): string {
    if recs == [] then [] else format(recs[0]) + Stored(format, recs[1..])
  }

  /** What reading one line does to the whole. */
  lemma LoadStep<R>(parse: string -> Option<R>, recs: seq<R>, file: string, max: nat, rec: Option<R>, rest: string)
    requires |recs| < max && file != [] && (rec, rest) == NextRecord(parse, file)
    ensures recs + Loaded(parse, file, max - |recs|)
         == if rec.None? then recs + Loaded(parse, rest, max - |recs|)
            else (recs + [rec.value]) + Loaded(parse, rest, max - |recs| - 1)
  {
    if rec.Some? {
      Associates(recs, [rec.value], Loaded(parse, rest, max - |recs| - 1));
    }
  }

  method ReadRecord<R>(parse: string -> Option<R>, file: string) returns (rec: Option<R>, rest: string)
    requires file != []
    ensures (rec, rest) == NextRecord(parse, file) && |rest| < |file|
  {
    var (line, after) := Fgets(file, LINE_MAX_LEN);
    rec, rest := None, after;
    if !Skipped(line) {
      rec := parse(line);
    }
  }

  method LoadAll<R>(parse: string -> Option<R>, file: string, max: nat) returns (recs: seq<R>)
    ensures recs == Loaded(parse, file, max)
  {
    recs := [];
    var rest := file;
    ghost var all := Loaded(parse, file, max);
    assert recs + all == all;
    while |recs| < max && rest != []
      invariant |recs| <= max
      invariant recs + Loaded(parse, rest, max - |recs|) == all
      decreases |rest|
    {
      var rec, after := ReadRecord(parse, rest);
      LoadStep(parse, recs, rest, max, rec, after);
      if rec.Some? {
        recs := recs + [rec.value];
      }
      rest := after;
    }
    assert recs + [] == recs;
  }

  lemma {:induction false} StoredAppend<R>(format: R -> string, a: seq<R>, b: seq<R>)
    ensures Stored(format, a + b) == Stored(format, a) + Stored(format, b)
  {
    if a == [] {
      assert a + b == b;
    } else {
      StoredAppend(format, a[1..], b);
      assert (a + b)[0] == a[0] && (a + b)[1..] == a[1..] + b;
      Associates(format(a[0]), Stored(format, a[1..]), Stored(format, b));
    }
  }

  method StoreAll<R>(format: R -> string, recs: seq<R>) returns (file: string)
    ensures file == Stored(format, recs)
  {
    file := [];
    for i := 0 to |recs|
      invariant file == Stored(format, recs[..i])
    {
      StoredAppend(format, recs[..i], [recs[i]]);
      assert recs[..i + 1] == recs[..i] + [recs[i]];
      assert Stored(format, [recs[i]][1..]) == [];
      file := file + format(recs[i]);
    }
    assert recs[..|recs|] == recs;
  }

  /** A record's line is one line, fits the buffer, is not passed over, and parses as the record. */
  ghost predicate ReadsBack<R>(parse: string -> Option<R>, format: R -> string, rec: R) {
    var line := format(rec);
    && 1 <= |line| < LINE_MAX_LEN
    && line[|line| - 1] == '\n' && Free(line[..|line| - 1], {'\n'})
    && !Skipped(line)
    && parse(line) == Some(rec)
  }

  ghost predicate Readable<R>(parse: string -> Option<R>, format: R -> string, recs: seq<R>) {
    recs != [] ==> ReadsBack(parse, format, recs[0]) && Readable(parse, format, recs[1..])
  }

  lemma LineMakesRecord<R>(parse: string -> Option<R>, format: R -> string, rec: R, body: string)
    requires format(rec) == body + ['\n'] && parse(format(rec)) == Some(rec)
    requires body != [] && Free(body, {'\n'}) && |body| + 1 < LINE_MAX_LEN && !Skipped(body)
    ensures ReadsBack(parse, format, rec)
  {
    var line := format(rec);
    assert line[..|line| - 1] == body;
  }

  lemma FirstRecord<R>(parse: string -> Option<R>, format: R -> string, rec: R, rest: string, max: nat)
    requires ReadsBack(parse, format, rec) && max > 0
    ensures Fgets(format(rec) + rest, LINE_MAX_LEN) == (format(rec), rest)
    ensures Loaded(parse, format(rec) + rest, max) == [rec] + Loaded(parse, rest, max - 1)
  {
    var line := format(rec);
    var body := line[..|line| - 1];
    assert line == body + ['\n'];
    FgetsLine(body, rest, LINE_MAX_LEN);
  }

  lemma FirstOf<R>(parse: string -> Option<R>, format: R -> string, recs: seq<R>, rest: string, max: nat)
    requires recs != [] && ReadsBack(parse, format, recs[0]) && max > 0
    ensures Loaded(parse, Stored(format, recs) + rest, max) == [recs[0]] + Loaded(parse, Stored(format, recs[1..]) + rest, max - 1)
  {
    var tail := Stored(format, recs[1..]);
    assert Stored(format, recs) + rest == format(recs[0]) + (tail + rest) by {
      Associates(format(recs[0]), tail, rest);
    }
    FirstRecord(parse, format, recs[0], tail + rest, max);
  }

  lemma HeadAndTail<R>(recs: seq<R>, more: seq<R>)
    requires recs != []
    ensures [recs[0]] + (recs[1..] + more) == recs + more
  {
  }

  /** Records that read back are read first, whatever follows them. */
  lemma {:induction false} LoadedAfter<R>(parse: string -> Option<R>, format: R -> string, recs: seq<R>, rest: string, max: nat)
    requires |recs| <= max && Readable(parse, format, recs)
    ensures Loaded(parse, Stored(format, recs) + rest, max) == recs + Loaded(parse, rest, max - |recs|)
  {
    if recs == [] {
      assert Stored(format, recs) + rest == rest;
    } else {
      FirstOf(parse, format, recs, rest, max);
      LoadedAfter(parse, format, recs[1..], rest, max - 1);
      HeadAndTail(recs, Loaded(parse, rest, max - |recs|));
    }
  }

  /** Storing a list that the table has room for and loading it back yields the list. */
  lemma StoreThenLoad<R>(parse: string -> Option<R>, format: R -> string, recs: seq<R>, max: nat)
    requires |recs| <= max && Readable(parse, format, recs)
    ensures Loaded(parse, Stored(format, recs), max) == recs
  {
    LoadedAfter(parse, format, recs, [], max);
    assert Stored(format, recs) + [] == Stored(format, recs);
    assert recs + Loaded(parse, [], max - |recs|) == recs;
  }

  lemma StoredOne<R>(format: R -> string, rec: R)
    ensures Stored(format, [rec]) == format(rec)
  {
    assert Stored(format, [rec][1..]) == [];
  }

  /** A line that is passed over yields nothing. */
  lemma SkippedLine<R>(parse: string -> Option<R>, body: string, max: nat)
    requires Free(body, {'\n'}) && |body| + 1 < LINE_MAX_LEN && Skipped(body)
    ensures Loaded(parse, body + ['\n'], max) == []
  {
    FgetsLine(body, [], LINE_MAX_LEN);
    assert body + ['\n'] + [] == body + ['\n'];
  }

  /** A last record whose line is passed over is lost. */
  lemma LastLineSkipped<R>(parse: string -> Option<R>, format: R -> string, recs: seq<R>, rec: R, body: string, max: nat)
    requires |recs| < max && Readable(parse, format, recs)
    requires format(rec) == body + ['\n'] && Free(body, {'\n'}) && |body| + 1 < LINE_MAX_LEN && Skipped(body)
    ensures Loaded(parse, Stored(format, recs + [rec]), max) != recs + [rec]
  {
    SkippedLine(parse, body, max - |recs|);
    LoadedAfter(parse, format, recs, format(rec), max);
    StoredAppend(format, recs, [rec]);
    StoredOne(format, rec);
    assert |recs + [rec]| == |recs + Loaded(parse, format(rec), max - |recs|)| + 1;
  }

  /** So is one that has what no record read from a file has. */
  lemma LastRecordLost<R>(parse: string -> Option<R>, format: R -> string, recs: seq<R>, rec: R, max: nat, p: R -> bool)
    requires forall r :: r in Loaded(parse, Stored(format, recs + [rec]), max) ==> p(r)
    requires !p(rec)
    ensures Loaded(parse, Stored(format, recs + [rec]), max) != recs + [rec]
  {
    assert (recs + [rec])[|recs|] in recs + [rec];
  }

  /** A last record is read as whatever its line parses as. */
  lemma LastLineReadsAs<R>(parse: string -> Option<R>, format: R -> string, recs: seq<R>, rec: R, body: string, other: R, max: nat)
    requires |recs| < max && Readable(parse, format, recs)
    requires format(rec) == body + ['\n'] && body != [] && Free(body, {'\n'}) && |body| + 1 < LINE_MAX_LEN && !Skipped(body)
    requires parse(format(rec)) == Some(other)
    ensures Loaded(parse, Stored(format, recs + [rec]), max) == recs + [other]
  {
    FgetsLine(body, [], LINE_MAX_LEN);
    assert body + ['\n'] + [] == body + ['\n'];
    assert Loaded(parse, format(rec), max - |recs|) == [other] + Loaded(parse, [], max - |recs| - 1);
    LoadedAfter(parse, format, recs, format(rec), max);
    StoredAppend(format, recs, [rec]);
    StoredOne(format, rec);
  }

  // ----- Looking one record up -----

  /** The lookup passes over comments and empty lines, but not over a line that begins with CR. */
  predicate PassedOver(line: string) {
    line != [] && (line[0] == '#' || line[0] == '\n')
  }

  /** The first record of a file that satisfies `hit`, however many there are. */
  function Found<R>(parse: string -> Option<R>, hit: R -> bool, file: string): Option<R>
    decreases |file|
  {
    if file == [] then None
    else
      var (line, rest) := Fgets(file, LINE_MAX_LEN);
      var rec := if PassedOver(line) then None else parse(line);
      if rec.Some? && hit(rec.value) then rec else Found(parse, hit, rest)
  }

  method FindLine<R>(parse: string -> Option<R>, hit: R -> bool, file: string) returns (r: Option<R>)
    ensures r == Found(parse, hit, file)
  {
    var rest := file;
    while rest != []
      invariant Found(parse, hit, file) == Found(parse, hit, rest)
      decreases |rest|
    {
      var (line, after) := Fgets(rest, LINE_MAX_LEN);
      if !PassedOver(line) {
        var rec := parse(line);
        if rec.Some? && hit(rec.value) {
          return rec;
        }
      }
      rest := after;
    }
    r := None;
  }

  /** A line that begins with CR is read by the lookup and skipped by the load, so it is found and then lost. */
  lemma CrLineIsFoundOnly<R>(parse: string -> Option<R>, hit: R -> bool, file: string, max: nat)
    requires file != [] && file[0] == '\r'
    ensures var (line, rest) := Fgets(file, LINE_MAX_LEN);
            && Loaded(parse, file, max) == Loaded(parse, rest, max)
            && (parse(line).Some? && hit(parse(line).value) ==> Found(parse, hit, file) == parse(line))
  {
  }

  function FirstHit<R>(recs: seq<R>, hit: R -> bool): Option<R> {
    if recs == [] then None else if hit(recs[0]) then Some(recs[0]) else FirstHit(recs[1..], hit)
  }

  /** In a file of records that read back, the lookup finds the first of them. */
  lemma {:induction false} FoundStored<R>(parse: string -> Option<R>, format: R -> string, hit: R -> bool, recs: seq<R>)
    requires Readable(parse, format, recs)
    ensures Found(parse, hit, Stored(format, recs)) == FirstHit(recs, hit)
  {
    if recs != [] {
      FirstRecord(parse, format, recs[0], Stored(format, recs[1..]), 1);
      FoundStored(parse, format, hit, recs[1..]);
    }
  }

  /** Nothing after a newline. */
  ghost predicate OneLine(line: string) {
    line != [] && Free(line[..|line| - 1], {'\n'})
  }

  lemma {:induction false} FirstLfIsFirst(s: string)
    ensures Free(s[..FirstLf(s)], {'\n'})
  {
    if s != [] && s[0] != '\n' {
      FirstLfIsFirst(s[1..]);
      assert s[..FirstLf(s)] == [s[0]] + s[1..][..FirstLf(s[1..])];
    }
  }

  lemma FgetsOneLine(file: string, size: nat)
    requires file != [] && size >= 2
    ensures OneLine(Fgets(file, size).0)
  {
    FirstLfIsFirst(file);
    var line := Fgets(file, size).0;
    var body := line[..|line| - 1];
    forall i | 0 <= i < |body| ensures body[i] != '\n' {
      assert body[i] == file[..FirstLf(file)][i];
    }
  }

  /** What holds of every record a single line can make holds of every record loaded. */
  lemma {:induction false} LoadedSatisfy<R>(parse: string -> Option<R>, file: string, max: nat, p: R -> bool)
    requires forall line :: OneLine(line) && parse(line).Some? ==> p(parse(line).value)
    ensures forall r :: r in Loaded(parse, file, max) ==> p(r)
    decreases |file|
  {
    if max != 0 && file != [] {
      FgetsOneLine(file, LINE_MAX_LEN);
      var (line, rest) := Fgets(file, LINE_MAX_LEN);
      LoadedSatisfy(parse, rest, max, p);
      LoadedSatisfy(parse, rest, max - 1, p);
    }
  }
}
