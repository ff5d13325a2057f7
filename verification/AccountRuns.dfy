/**
 Two runs of the account commands in which usermod -G reports success and does not do what
 it was asked for.
 */
module AccountRuns {
  import opened Accounts
  import opened Groups
  import opened LibC
  import PasswdCodec

  // ----- A list that is cut short -----

  /** Names of the greatest length, all different, without comma. */
  ghost predicate LongNames(names: seq<string>) {
    && (forall i :: 0 <= i < |names| ==> |names[i]| == PasswdCodec.USER_MAX - 1 && Free(names[i], COMMA))
    && (forall i, j :: 0 <= i < j < |names| ==> names[i] != names[j])
  }

  /** The names with commas between. */
  function ListOf(names: seq<string>): string
    requires names != []
  {
    if |names| == 1 then names[0] else ListOf(names[..|names| - 1]) + [','] + names[|names| - 1]
  }

  lemma {:induction false} ListOfLength(names: seq<string>)
    requires LongNames(names) && names != []
    ensures |ListOf(names)| == 17 * |names| - 1
  {
    if |names| > 1 {
      ListOfLength(names[..|names| - 1]);
    }
  }

  lemma {:induction false} ListOfNames(names: seq<string>, u: string)
    requires LongNames(names) && names != [] && u != []
    ensures u in Segments(ListOf(names)) <==> u in names
  {
    var (init, last) := (names[..|names| - 1], names[|names| - 1]);
    assert names == init + [last];
    OneSegment(last);
    if init != [] {
      ListOfNames(init, u);
      SegmentsSplit(ListOf(init), last, u);
    }
  }

  function Adding(names: seq<string>): seq<Event> {
    seq(|names|, i requires 0 <= i < |names| => GroupAdd(names[i], false, ALL_WRITES))
  }

  lemma {:induction false} RunAppend(s: State, events: seq<Event>, e: Event)
    ensures Run(s, events + [e]) == Step(Run(s, events), e).0
    decreases |events|
  {
    if events == [] {
      assert (events + [e])[1..] == [];
    } else {
      assert (events + [e])[1..] == events[1..] + [e];
      RunAppend(Step(s, events[0]).0, events[1..], e);
    }
  }

  /** `gs` are three groups of short names and lists, and then an empty group of each of the names. */
  ghost predicate WithGroups(gs: seq<Group>, names: seq<string>) {
    && |gs| == 3 + |names|
    && (forall i :: 0 <= i < 3 ==> 0 < |gs[i].name| <= 4 && |gs[i].members| <= 3)
    && (forall i :: 3 <= i < |gs| ==> gs[i].name == names[i - 3] && gs[i].members == [])
  }

  /** No group has the name yet. */
  lemma NotYet(gs: seq<Group>, names: seq<string>, name: string)
    requires WithGroups(gs, names) && name !in names && |name| == 16
    ensures FirstNamed(gs, name) == |gs|
  {
    forall j | 0 <= j < |gs| ensures gs[j].name != name {
      assert j >= 3 ==> gs[j].name == names[j - 3];
    }
  }

  lemma PlaceOf(gs: seq<Group>, names: seq<string>, i: nat)
    requires WithGroups(gs, names) && LongNames(names) && i < |names|
    ensures FirstNamed(gs, names[i]) == 3 + i
  {
    var k := FirstNamed(gs, names[i]);
    assert gs[3 + i].name == names[i];
    assert 3 <= k < |gs| ==> gs[k].name == names[k - 3];
  }

  lemma GroupAdded(s: State, names: seq<string>, name: string)
    requires WithGroups(s.groups, names) && |names| < 9 && |s.accounts| == 2 && name !in names && |name| == 16
    ensures var (t, err) := Step(s, GroupAdd(name, false, ALL_WRITES));
            err == Fine && t.accounts == s.accounts && WithGroups(t.groups, names + [name])
  {
    NotYet(s.groups, names, name);
    IdIsAlwaysFree(s, false);
  }

  lemma {:induction false} GroupsAdded(secret: Secret, names: seq<string>)
    requires LongNames(names) && |names| <= 9
    ensures var s := Run(Seeded(secret), Adding(names)); s.accounts == Seeded(secret).accounts && WithGroups(s.groups, names)
  {
    if names != [] {
      var (init, last) := (names[..|names| - 1], names[|names| - 1]);
      GroupsAdded(secret, init);
      GroupAdded(Run(Seeded(secret), Adding(init)), init, last);
      assert Adding(names) == Adding(init) + [GroupAdd(last, false, ALL_WRITES)] && names == init + [last];
      RunAppend(Seeded(secret), Adding(init), GroupAdd(last, false, ALL_WRITES));
    }
  }

  lemma CutAfterEight(names: seq<string>)
    requires LongNames(names) && |names| == 9
    ensures Clipped(ListOf(names)) == ListOf(names[..8])
  {
    ListOfLength(names[..8]);
    assert ListOf(names) == ListOf(names[..8]) + ([','] + names[8]);
  }

  /** Of the nine groups each but the last is asked for. */
  lemma AskedEight(gs: seq<Group>, names: seq<string>, i: nat)
    requires WithGroups(gs, names) && LongNames(names) && |names| == 9 && i < 9
    ensures Asked(gs, ListOf(names), 3 + i) <==> i < 8
  {
    CutAfterEight(names);
    ListOfNames(names[..8], names[i]);
    PlaceOf(gs, names, i);
    assert gs[3 + i].name == names[i];
    assert i < 8 ==> names[..8][i] == names[i];
    assert names[8] !in names[..8] by {
      assert forall j :: 0 <= j < 8 ==> names[..8][j] == names[j];
    }
  }

  lemma RoomForEsp(gs: seq<Group>, names: seq<string>, i: nat)
    requires i < |gs| && |gs[i].members| <= 3
    ensures |Grown(gs, names, "esp", i)| < MEMBERS_MAX
  {
    var m := gs[i].members;
    assert Free("esp", COMMA) && Times(gs, names, "esp", i) <= 1;
    assert Joins(m, "esp", 1) == Joined(Joins(m, "esp", 0), "esp");
  }

  /** Every one of the eight is a group's and has the room. */
  lemma EightSucceed(gs: seq<Group>, names: seq<string>)
    requires WithGroups(gs, names) && LongNames(names) && |names| == 9
    ensures SetGroups(gs, "esp", ListOf(names), false).Done?
  {
    CutAfterEight(names);
    var (base, asked) := (StartingFrom(gs, "esp", false), Tokens(ListOf(names[..8])));
    forall k | 0 <= k < |asked| ensures FirstNamed(base, asked[k]) < |base| {
      TokensAreSegments(ListOf(names[..8]), asked[k]);
      ListOfNames(names[..8], asked[k]);
      var i :| 0 <= i < 8 && names[..8][i] == asked[k];
      PlaceOf(gs, names, i);
      SameFirst(gs, base, asked[k]);
    }
    forall i | 0 <= i < |base| ensures |Grown(base, asked, "esp", i)| < MEMBERS_MAX {
      StrippedNames(gs, "esp", i, "esp");
      RoomForEsp(base, asked, i);
    }
    SetGroupsSucceeds(gs, "esp", ListOf(names), false);
  }

  lemma InEight(gs: seq<Group>, names: seq<string>, csv: string, i: nat)
    requires WithGroups(gs, names) && LongNames(names) && |names| == 9 && csv == ListOf(names) && i < 9
    ensures SetGroups(gs, "esp", csv, false).Done?
    ensures var r := SetGroups(gs, "esp", csv, false).groups;
            |r| == 12 && r[3 + i].name == names[i] && ("esp" in Segments(r[3 + i].members) <==> i < 8)
  {
    EightSucceed(gs, names);
    AskedEight(gs, names, i);
    OneSegment("esp");
    SetGroupsExact(gs, "esp", csv, false, 3 + i, "esp");
    assert gs[3 + i].name == names[i] && gs[3 + i].members == [];
  }

  /**
   Nine groups of any names of the greatest length are made and esp is put into all nine. The
   list of them is cut after the eighth; the command succeeds, and esp is in eight.
   */
  lemma NinthGroupMissed(secret: Secret, names: seq<string>, csv: string, s: State, i: nat)
    requires LongNames(names) && |names| == 9 && i < 9
    requires s == Run(Seeded(secret), Adding(names)) && csv == ListOf(names)
    ensures names[i] in Segments(csv)
    ensures var (t, err) := Step(s, SetMembership("esp", csv, false, ALL_WRITES));
            && err == Fine && |t.groups| == 12
            && t.groups[3 + i].name == names[i] && ("esp" in Segments(t.groups[3 + i].members) <==> i < 8)
  {
    GroupsAdded(secret, names);
    assert IndexOf(s.accounts, "esp") == 0 by { EspIsFirst(secret); }
    ListOfNames(names, names[i]);
    InEight(s.groups, names, csv, i);
    Membership(s, "esp", csv, false, SetGroups(s.groups, "esp", csv, false).groups);
  }

  lemma Membership(s: State, user: string, csv: string, append: bool, gs: seq<Group>)
    requires IndexOf(s.accounts, user) < |s.accounts| && SetGroups(s.groups, user, csv, append) == Done(gs)
    ensures Step(s, SetMembership(user, csv, append, ALL_WRITES)) == (s.(groups := gs), Fine)
  {
  }

  /** There are such names. */
  lemma NineLongNames() returns (names: seq<string>)
    ensures LongNames(names) && |names| == 9
  {
    names := seq(9, i requires 0 <= i < 9 => seq(16, _ => (97 + i) as char));
    forall i, j | 0 <= i < j < 9 ensures names[i] != names[j] {
      assert names[i][0] != names[j][0];
    }
  }

  // ----- A name with a comma -----

  const COMMA_NAME := "a,b"

  lemma CommaParts()
    ensures Segments(COMMA_NAME) == ["a", "b"] && !Free(COMMA_NAME, COMMA)
  {
    assert COMMA_NAME == "a" + [','] + "b" && COMMA_NAME[1] == ',';
    FirstSegment("a", "b");
    OneSegment("b");
  }

  lemma CommaUserAdded(secret: Secret)
    ensures var (s, err) := Step(Seeded(secret), UserAdd(COMMA_NAME, false, ALL_WRITES));
            && err == Fine && IndexOf(s.accounts, COMMA_NAME) == 2 && |s.accounts| == 3
            && |s.groups| == 4 && s.groups[..3] == Seeded(secret).groups
  {
    var s := Seeded(secret);
    IdIsAlwaysFree(s, false);
    assert s.accounts[0].name[0] == 'e' && s.accounts[1].name[0] == 'r' && COMMA_NAME[0] == 'a';
    IndexOfIs(s.accounts, COMMA_NAME, 2);
    var t := Step(s, UserAdd(COMMA_NAME, false, ALL_WRITES)).0;
    assert t.accounts == s.accounts + [t.accounts[2]];
    IndexOfIs(t.accounts, COMMA_NAME, 2);
  }

  lemma SudoOnly(gs: seq<Group>, secret: Secret, user: string, csv: string, members: string)
    requires |gs| == 4 && gs[..3] == Seeded(secret).groups && user == COMMA_NAME && csv == "sudo" && members == Joined("esp", user)
    ensures SetGroups(gs, user, csv, true) == Done(gs[1 := gs[1].(members := members)])
  {
    assert gs[0] == gs[..3][0] && gs[1] == gs[..3][1];
    assert "root"[0] != csv[0];
    FirstNamedIs(gs, csv, 1);
    OneSegment("esp");
    assert user[0] != "esp"[0];
    OneToken(csv);
    AddOnlyOne(gs, csv, user);
  }

  lemma AddOnlyOne(gs: seq<Group>, name: string, user: string)
    ensures AddAll(gs, [name], user) == AddOne(gs, name, user)
  {
    assert [name][1..] == [];
  }

  lemma OneToken(name: string)
    requires name != [] && Free(name, COMMA)
    ensures Tokens(name) == [name]
  {
    FirstToken(name);
    CSpanOver(name, [], COMMA);
    assert name + [] == name && name[..|name|] == name;
  }

  lemma CommaMembers(members: string, user: string)
    requires user == COMMA_NAME && members == Joined("esp", user)
    ensures "a" in Segments(members) && "b" in Segments(members) && user !in Segments(members)
  {
    CommaParts();
    JoinedParts("esp", user, "a");
    JoinedParts("esp", user, "b");
    FoundAfter("esp", user);
  }

  /** The user a,b is added and put into sudo: a and b are in it, and a,b is not. */
  lemma CommaNameSplits(secret: Secret, user: string, csv: string, s1: State)
    requires user == COMMA_NAME && csv == "sudo" && s1 == Step(Seeded(secret), UserAdd(user, false, ALL_WRITES)).0
    ensures var (s, err) := Step(s1, SetMembership(user, csv, true, ALL_WRITES));
            && err == Fine && |s.groups| == 4 && s.groups[1].name == csv
            && "a" in Segments(s.groups[1].members) && "b" in Segments(s.groups[1].members)
            && user !in Segments(s.groups[1].members)
  {
    CommaUserAdded(secret);
    var members := Joined("esp", user);
    assert s1.groups[1] == s1.groups[..3][1];
    SudoOnly(s1.groups, secret, user, csv, members);
    Membership(s1, user, csv, true, s1.groups[1 := s1.groups[1].(members := members)]);
    CommaMembers(members, user);
  }
}
