/** The group file: how a group is printed and read, and that a stored list reads back. */
module GroupCodec {
  import opened Collections
  import opened LibC
  import opened LineFile
  import opened Groups
  import PasswdCodec

  const MAX_GROUPS := 12

  const FIELD_END: set<char> := {':', '\r', '\n'}

  function Fields(line: string): seq<Option<string>> {
    var (name, l1) := Strtok(line, {':'});
    var (gid, l2) := Strtok(l1, FIELD_END);
    var (members, l3) := Strtok(l2, FIELD_END);
    [name, gid, members]
  }

  /** A group from its fields, given how an id is read. */
  function Assemble(id: Option<string> -> Option<nat>, f: seq<Option<string>>): Option<Group>
    requires |f| == 3
  {
    if f[0] == None then None
    else match id(f[1])
      case None => None
      case Some(gid) => Some(Group(PasswdCodec.Copied(f[0].value, PasswdCodec.USER_MAX), gid,
                                   if f[2] == None then [] else PasswdCodec.Copied(f[2].value, MEMBERS_MAX)))
  }

  function ParseGroup(line: string): Option<Group> {
    Assemble(PasswdCodec.ParseId, Fields(line))
  }

  function Body(g: Group): string {
    g.name + [':'] + (Decimal(g.gid) + [':'] + g.members)
  }

  function FormatGroup(g: Group): string {
    Body(g) + ['\n']
  }

  ghost predicate WellFormed(g: Group) {
    && |g.name| < PasswdCodec.USER_MAX && PasswdCodec.Carried(g.name)
    && g.gid <= PasswdCodec.UINT16_MAX
    && |g.members| < MEMBERS_MAX && Free(g.members, FIELD_END)
  }

  function MembersField(members: string): Option<string> {
    if members == [] then None else Some(members)
  }

  lemma LastField(members: string)
    requires Free(members, FIELD_END)
    ensures Strtok(members + ['\n'] + [], FIELD_END).0 == MembersField(members)
  {
    if members == [] {
      var s := members + ['\n'] + [];
      assert s == ['\n'] && s[1..] == [];
      assert Span(s, FIELD_END) == 1;
    } else {
      StrtokField(members, '\n', [], FIELD_END);
    }
  }

  lemma FieldsReadBack(name: string, gid: string, members: string)
    requires name != [] && Free(name, {':'})
    requires gid != [] && Free(gid, FIELD_END)
    requires Free(members, FIELD_END)
    ensures Fields(name + [':'] + (gid + [':'] + (members + ['\n'] + []))) == [Some(name), Some(gid), MembersField(members)]
  {
    LastField(members);
    StrtokField(gid, ':', members + ['\n'] + [], FIELD_END);
    StrtokField(name, ':', gid + [':'] + (members + ['\n'] + []), {':'});
  }

  lemma Nested(a: string, b: string, c: string)
    ensures a + [':'] + (b + [':'] + c) + ['\n'] == a + [':'] + (b + [':'] + (c + ['\n'] + []))
  {
  }

  lemma FieldsMakeGroup(id: Option<string> -> Option<nat>, g: Group, gid: string)
    requires |g.name| < PasswdCodec.USER_MAX && |g.members| < MEMBERS_MAX
    requires id(Some(gid)) == Some(g.gid)
    ensures Assemble(id, [Some(g.name), Some(gid), MembersField(g.members)]) == Some(g)
  {
  }

  lemma GroupReadsBack(g: Group)
    requires WellFormed(g)
    ensures ParseGroup(FormatGroup(g)) == Some(g)
  {
    var gid := Decimal(g.gid);
    PasswdCodec.DecimalIsFree(g.gid, FIELD_END);
    PasswdCodec.FreeOf(g.name, {':', '\n'}, {':'});
    Nested(g.name, gid, g.members);
    FieldsReadBack(g.name, gid, g.members);
    PasswdCodec.IdReadsBack(g.gid);
    FieldsMakeGroup(PasswdCodec.ParseId, g, gid);
  }

  lemma LineFits(g: Group)
    requires WellFormed(g.(name := "x")) && |g.name| < PasswdCodec.USER_MAX
    ensures |FormatGroup(g)| <= 159 < LINE_MAX_LEN
  {
    assert Pow10(5) == 100000;
    DecimalLength(g.gid, 5);
  }

  lemma BodyIsFree(g: Group)
    requires WellFormed(g.(name := "x")) && Free(g.name, {'\n'})
    ensures Free(Body(g), {'\n'})
  {
    PasswdCodec.DecimalIsFree(g.gid, {'\n'});
  }

  lemma BodyIsALine(g: Group)
    requires WellFormed(g)
    ensures Body(g) != [] && Free(Body(g), {'\n'}) && |Body(g)| + 1 < LINE_MAX_LEN && !Skipped(Body(g))
  {
    LineFits(g);
    BodyIsFree(g);
    assert Body(g)[0] == g.name[0];
  }

  lemma LineReadsBack(g: Group)
    requires WellFormed(g)
    ensures ReadsBack(ParseGroup, FormatGroup, g)
  {
    GroupReadsBack(g);
    BodyIsALine(g);
    LineMakesRecord(ParseGroup, FormatGroup, g, Body(g));
  }

  lemma {:induction false} AllReadBack(gs: seq<Group>)
    requires forall i :: 0 <= i < |gs| ==> WellFormed(gs[i])
    ensures Readable(ParseGroup, FormatGroup, gs)
  {
    if gs != [] {
      LineReadsBack(gs[0]);
      AllReadBack(gs[1..]);
    }
  }

  /** Storing any list of at most twelve well-formed groups and loading it back yields the list. */
  lemma GroupRoundTrip(gs: seq<Group>)
    requires |gs| <= MAX_GROUPS && forall i :: 0 <= i < |gs| ==> WellFormed(gs[i])
    ensures Loaded(ParseGroup, Stored(FormatGroup, gs), MAX_GROUPS) == gs
  {
    AllReadBack(gs);
    StoreThenLoad(ParseGroup, FormatGroup, gs, MAX_GROUPS);
  }

  // ----- Which names the file carries -----

  predicate NoSeparator(g: Group) {
    ':' !in g.name && '\n' !in g.name
  }

  lemma ParsedName(line: string)
    requires OneLine(line) && ParseGroup(line).Some?
    ensures NoSeparator(ParseGroup(line).value)
  {
    var (name, rest) := Strtok(line, {':'});
    PasswdCodec.TokenIsFree(line, {':'});
    PasswdCodec.NoTokenInNothing(FIELD_END);
    assert ParseGroup(line).value.name == PasswdCodec.Copied(name.value, PasswdCodec.USER_MAX);
  }

  lemma LostByName(gs: seq<Group>, g: Group)
    requires !NoSeparator(g)
    ensures Loaded(ParseGroup, Stored(FormatGroup, gs + [g]), MAX_GROUPS) != gs + [g]
  {
    forall line | OneLine(line) && ParseGroup(line).Some? ensures NoSeparator(ParseGroup(line).value) {
      ParsedName(line);
    }
    LoadedSatisfy(ParseGroup, Stored(FormatGroup, gs + [g]), MAX_GROUPS, NoSeparator);
    LastRecordLost(ParseGroup, FormatGroup, gs, g, MAX_GROUPS, NoSeparator);
  }

  lemma SkippedBody(g: Group)
    requires WellFormed(g.(name := "x")) && g.name != [] && |g.name| < PasswdCodec.USER_MAX
    requires NoSeparator(g) && !PasswdCodec.Carried(g.name)
    ensures |Body(g)| + 1 < LINE_MAX_LEN && Free(Body(g), {'\n'}) && Skipped(Body(g))
  {
    LineFits(g);
    BodyIsFree(g);
    assert Body(g)[0] == g.name[0];
  }

  lemma LostBySkip(gs: seq<Group>, g: Group, body: string)
    requires |gs| < MAX_GROUPS && Readable(ParseGroup, FormatGroup, gs)
    requires FormatGroup(g) == body + ['\n'] && |body| + 1 < LINE_MAX_LEN && Free(body, {'\n'}) && Skipped(body)
    ensures Loaded(ParseGroup, Stored(FormatGroup, gs + [g]), MAX_GROUPS) != gs + [g]
  {
    LastLineSkipped(ParseGroup, FormatGroup, gs, g, body, MAX_GROUPS);
  }

  lemma NewGroupKept(gs: seq<Group>, g: Group)
    requires |gs| < MAX_GROUPS && (forall i :: 0 <= i < |gs| ==> WellFormed(gs[i])) && WellFormed(g)
    ensures Loaded(ParseGroup, Stored(FormatGroup, gs + [g]), MAX_GROUPS) == gs + [g]
  {
    GroupRoundTrip(gs + [g]);
  }

  /** One more group is read back exactly when the file can carry its name. */
  lemma NewGroupReadsBack(gs: seq<Group>, g: Group)
    requires |gs| < MAX_GROUPS && forall i :: 0 <= i < |gs| ==> WellFormed(gs[i])
    requires WellFormed(g.(name := "x")) && g.name != [] && |g.name| < PasswdCodec.USER_MAX
    ensures Loaded(ParseGroup, Stored(FormatGroup, gs + [g]), MAX_GROUPS) == gs + [g] <==> PasswdCodec.Carried(g.name)
  {
    if !NoSeparator(g) {
      LostByName(gs, g);
    } else if !PasswdCodec.Carried(g.name) {
      AllReadBack(gs);
      SkippedBody(g);
      LostBySkip(gs, g, Body(g));
    } else {
      NewGroupKept(gs, g);
    }
  }
}
