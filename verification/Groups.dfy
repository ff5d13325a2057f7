/**
 Group membership: the comma-separated member list of a group, taking a user out of it,
 and setting the groups a user is in.
 */
module Groups {
  import opened Collections
  import opened LibC

  const MEMBERS_MAX := 136

  datatype Group = Group(name: string, gid: nat, members: string)

  datatype Error = Fine | InvalidArg | InvalidState | NotFound | NotAllowed | NoMem | Failed

  // ----- Member lists -----

  const COMMA: set<char> := {','}

  /** The names in a list; nothing follows a comma that ends it. */
  function Segments(s: string): seq<string>
    decreases |s|
  {
    if s == [] then []
    else
      var k := CSpan(s, COMMA);
      [s[..k]] + if k < |s| then Segments(s[k + 1..]) else []
  }

  /** A list with one more name. */
  function Joined(list: string, name: string): string {
    if list == [] then name else list + [','] + name
  }

  lemma OneSegment(name: string)
    requires name != [] && Free(name, COMMA)
    ensures Segments(name) == [name]
  {
    CSpanOver(name, [], COMMA);
    assert name + [] == name && name[..|name|] == name;
  }

  lemma FirstSegment(name: string, rest: string)
    requires Free(name, COMMA)
    ensures Segments(name + [','] + rest) == [name] + Segments(rest)
  {
    var s := name + [','] + rest;
    assert s == name + ([','] + rest);
    CSpanOver(name, [','] + rest, COMMA);
    assert s[..|name|] == name && s[|name| + 1..] == rest;
  }

  lemma {:induction false} SegmentsSplit(a: string, b: string, u: string)
    requires u != []
    ensures u in Segments(a + [','] + b) <==> u in Segments(a) || u in Segments(b)
    decreases |a|
  {
    var k := CSpan(a, COMMA);
    CSpanStops(a, COMMA);
    if k < |a| {
      var (name, rest) := (a[..k], a[k + 1..]);
      assert a == name + [','] + rest;
      assert a + [','] + b == name + [','] + (rest + [','] + b);
      FirstSegment(name, rest);
      FirstSegment(name, rest + [','] + b);
      SegmentsSplit(rest, b, u);
    } else {
      assert a[..k] == a;
      FirstSegment(a, b);
      if a != [] {
        OneSegment(a);
      }
    }
  }

  /** Joining adds that name and no other. */
  lemma JoinedNames(list: string, name: string, u: string)
    requires u != [] && Free(name, COMMA)
    ensures u in Segments(Joined(list, name)) <==> u in Segments(list) || u == name
  {
    if name != [] {
      OneSegment(name);
    }
    if list != [] {
      SegmentsSplit(list, name, u);
    }
  }

  lemma {:induction false} SegmentsHaveNoComma(s: string, u: string)
    requires u in Segments(s)
    ensures Free(u, COMMA)
    decreases |s|
  {
    var k := CSpan(s, COMMA);
    CSpanStops(s, COMMA);
    if u != s[..k] {
      var rest := if k < |s| then Segments(s[k + 1..]) else [];
      assert Segments(s) == [s[..k]] + rest && u in rest;
      SegmentsHaveNoComma(s[k + 1..], u);
    }
  }

  /** Joining such a name enters each of its parts as a member of its own. */
  lemma JoinedParts(list: string, name: string, u: string)
    requires u != []
    ensures u in Segments(Joined(list, name)) <==> u in Segments(list) || u in Segments(name)
  {
    if list != [] {
      SegmentsSplit(list, name, u);
    }
  }

  /** A list of one name is found to hold that name exactly when there is no comma in it. */
  lemma SelfInSegments(user: string)
    requires user != []
    ensures user in Segments(user) <==> Free(user, COMMA)
  {
    if Free(user, COMMA) {
      OneSegment(user);
    } else if user in Segments(user) {
      SegmentsHaveNoComma(user, user);
    }
  }

  method MemberOf(members: string, user: string) returns (found: bool)
    ensures found <==> user in Segments(members)
  {
    var p := members;
    while p != []
      invariant user in Segments(members) <==> user in Segments(p)
      decreases |p|
    {
      var seg := CSpan(p, COMMA);
      if p[..seg] == user {
        return true;
      }
      if seg == |p| {
        return false;
      }
      p := p[seg + 1..];
    }
    return false;
  }

  // ----- Taking a user out of a list -----

  /** What is built so far, completed from the rest of a list without `user`. */
  function Rebuilt(done: string, rest: string, user: string): string
    decreases |rest|
  {
    if rest == [] then done
    else
      var k := CSpan(rest, COMMA);
      var next := if rest[..k] == user then done else Joined(done, rest[..k]);
      if k < |rest| then Rebuilt(next, rest[k + 1..], user) else next
  }

  /** The list without `user` still names everybody else, and nobody new. */
  lemma {:induction false} RebuiltNames(done: string, rest: string, user: string, u: string)
    requires u != []
    ensures u in Segments(Rebuilt(done, rest, user)) <==> u in Segments(done) || (u != user && u in Segments(rest))
    decreases |rest|
  {
    if rest != [] {
      var k := CSpan(rest, COMMA);
      CSpanStops(rest, COMMA);
      JoinedNames(done, rest[..k], u);
      if k < |rest| {
        var next := if rest[..k] == user then done else Joined(done, rest[..k]);
        RebuiltNames(next, rest[k + 1..], user, u);
      }
    }
  }

  lemma {:induction false} RebuiltFits(done: string, rest: string, user: string)
    ensures |Rebuilt(done, rest, user)| <= |done| + 1 + |rest|
    ensures done == [] ==> |Rebuilt(done, rest, user)| <= |rest|
    decreases |rest|
  {
    if rest != [] {
      var k := CSpan(rest, COMMA);
      if k < |rest| {
        var next := if rest[..k] == user then done else Joined(done, rest[..k]);
        RebuiltFits(next, rest[k + 1..], user);
      }
    }
  }

  lemma {:induction false} RebuiltFree(done: string, rest: string, user: string, delims: set<char>)
    requires Free(done, delims) && Free(rest, delims) && ',' !in delims
    ensures Free(Rebuilt(done, rest, user), delims)
    decreases |rest|
  {
    if rest != [] {
      var k := CSpan(rest, COMMA);
      var next := if rest[..k] == user then done else Joined(done, rest[..k]);
      assert Free(next, delims);
      if k < |rest| {
        RebuiltFree(next, rest[k + 1..], user, delims);
      }
    }
  }

  /** snprintf at the end of what a buffer of MEMBERS_MAX holds: it writes what fits. */
  function Printed(buffer: string, text: string): (r: string)
    requires |buffer| < MEMBERS_MAX
    ensures |r| < MEMBERS_MAX
  {
    var all := buffer + text;
    if |all| < MEMBERS_MAX then all else all[..MEMBERS_MAX - 1]
  }

  /** The rebuilt list never runs out of its buffer. */
  method StripList(members: string, user: string) returns (rebuilt: string)
    requires |members| < MEMBERS_MAX
    ensures rebuilt == Rebuilt([], members, user)
    ensures |rebuilt| <= |members|
  {
    rebuilt := [];
    var p := members;
    while p != []
      invariant |rebuilt| + |p| <= |members|
      invariant rebuilt != [] ==> |rebuilt| + 1 + |p| <= |members|
      invariant Rebuilt(rebuilt, p, user) == Rebuilt([], members, user)
      decreases |p|
    {
      var seg := CSpan(p, COMMA);
      if p[..seg] != user {
        var text := (if rebuilt == [] then [] else [',']) + p[..seg];
        assert rebuilt + text == Joined(rebuilt, p[..seg]);
        rebuilt := Printed(rebuilt, text);
      }
      if seg == |p| {
        break;
      }
      p := p[seg + 1..];
    }
    RebuiltFits([], members, user);
  }

  ghost predicate Fit(gs: seq<Group>) {
    forall i :: 0 <= i < |gs| ==> |gs[i].members| < MEMBERS_MAX
  }

  function Without(g: Group, user: string): Group {
    if user in Segments(g.members) then g.(members := Rebuilt([], g.members, user)) else g
  }

  function Stripped(gs: seq<Group>, user: string): (r: seq<Group>)
    ensures |r| == |gs|
    ensures forall i :: 0 <= i < |gs| ==> r[i] == Without(gs[i], user)
  {
    seq(|gs|, i requires 0 <= i < |gs| => Without(gs[i], user))
  }

  /** Stripping takes the user out of every group, and leaves every other name where it was. */
  lemma StrippedNames(gs: seq<Group>, user: string, i: nat, u: string)
    requires i < |gs| && u != []
    ensures u in Segments(Stripped(gs, user)[i].members) <==> u != user && u in Segments(gs[i].members)
    ensures |Stripped(gs, user)[i].members| <= |gs[i].members|
  {
    RebuiltNames([], gs[i].members, user, u);
    RebuiltFits([], gs[i].members, user);
  }

  method StripGroup(g: Group, user: string) returns (h: Group)
    requires |g.members| < MEMBERS_MAX
    ensures h == Without(g, user) && |h.members| <= |g.members|
  {
    h := g;
    var found := MemberOf(g.members, user);
    if found {
      var rebuilt := StripList(g.members, user);
      h := g.(members := rebuilt);
    }
  }

  method MembershipStrip(g: array<Group>, count: nat, user: string)
    requires count <= g.Length && Fit(g[..count])
    modifies g
    ensures g[..count] == Stripped(old(g[..count]), user)
    ensures g[count..] == old(g[count..])
    ensures Fit(g[..count])
  {
    ghost var was := g[..];
    assert forall j :: 0 <= j < count ==> was[j] == g[..count][j];
    for i := 0 to count
      invariant forall j :: 0 <= j < i ==> g[j] == Without(was[j], user) && |g[j].members| < MEMBERS_MAX
      invariant forall j :: i <= j < g.Length ==> g[j] == was[j]
    {
      var h := StripGroup(g[i], user);
      g[i] := h;
    }
  }

  // ----- Putting a user into groups -----

  datatype Outcome = Done(groups: seq<Group>) | Fault(error: Error)

  /** Where the first group of a name is; past the end when there is none. */
  function FirstNamed(gs: seq<Group>, name: string): (i: nat)
    ensures i <= |gs|
    ensures i < |gs| ==> gs[i].name == name
    ensures forall j :: 0 <= j < i ==> gs[j].name != name
  {
    if gs == [] || gs[0].name == name then 0 else 1 + FirstNamed(gs[1..], name)
  }

  function AddOne(gs: seq<Group>, name: string, user: string): Outcome {
    var i := FirstNamed(gs, name);
    if i == |gs| then Fault(NotFound)
    else if user in Segments(gs[i].members) then Done(gs)
    else if |Joined(gs[i].members, user)| >= MEMBERS_MAX then Fault(NoMem)
    else Done(gs[i := gs[i].(members := Joined(gs[i].members, user))])
  }

  function AddAll(gs: seq<Group>, names: seq<string>, user: string): Outcome
    decreases |names|
  {
    if names == [] then Done(gs)
    else match AddOne(gs, names[0], user)
      case Done(next) => AddAll(next, names[1..], user)
      case Fault(e) => Fault(e)
  }

  /** The group a name in the list stands for. */
  ghost predicate Chosen(gs: seq<Group>, names: seq<string>, i: nat)
    requires i < |gs|
  {
    gs[i].name in names && FirstNamed(gs, gs[i].name) == i
  }

  /** How many of the names stand for group `i`. */
  function Hits(gs: seq<Group>, names: seq<string>, i: nat): nat
    decreases |names|
  {
    if names == [] then 0 else (if FirstNamed(gs, names[0]) == i then 1 else 0) + Hits(gs, names[1..], i)
  }

  function Joins(list: string, name: string, n: nat): string {
    if n == 0 then list else Joined(Joins(list, name, n - 1), name)
  }

  /** How often the user is appended to group `i`: once, but a name with a comma is never found and so appended at every hit. */
  ghost function Times(gs: seq<Group>, names: seq<string>, user: string, i: nat): nat
    requires i < |gs|
  {
    if user in Segments(gs[i].members) then 0
    else if Free(user, COMMA) then (if Chosen(gs, names, i) then 1 else 0)
    else Hits(gs, names, i)
  }

  ghost function Grown(gs: seq<Group>, names: seq<string>, user: string, i: nat): string
    requires i < |gs|
  {
    Joins(gs[i].members, user, Times(gs, names, user, i))
  }

  /** Every name is a group's, and every list that grows has the room. */
  ghost predicate Possible(gs: seq<Group>, names: seq<string>, user: string) {
    && (forall k :: 0 <= k < |names| ==> FirstNamed(gs, names[k]) < |gs|)
    && (forall i :: 0 <= i < |gs| && Times(gs, names, user, i) > 0 ==> |Grown(gs, names, user, i)| < MEMBERS_MAX)
  }

  ghost predicate Placed(gs: seq<Group>, names: seq<string>, user: string, r: seq<Group>) {
    && |r| == |gs|
    && forall i :: 0 <= i < |gs| ==> r[i] == gs[i].(members := Grown(gs, names, user, i))
  }

  lemma {:induction false} FirstNamedIs(gs: seq<Group>, name: string, i: nat)
    requires i <= |gs| && (i < |gs| ==> gs[i].name == name) && forall j :: 0 <= j < i ==> gs[j].name != name
    ensures FirstNamed(gs, name) == i
  {
    if i > 0 {
      FirstNamedIs(gs[1..], name, i - 1);
    }
  }

  lemma SameFirst(gs: seq<Group>, hs: seq<Group>, name: string)
    requires |gs| == |hs| && forall i :: 0 <= i < |gs| ==> gs[i].name == hs[i].name
    ensures FirstNamed(gs, name) == FirstNamed(hs, name)
  {
    FirstNamedIs(hs, name, FirstNamed(gs, name));
  }

  lemma ChosenAfter(gs: seq<Group>, names: seq<string>, next: seq<Group>, j: nat)
    requires |gs| == |next| && forall i :: 0 <= i < |gs| ==> gs[i].name == next[i].name
    requires names != [] && j < |gs|
    ensures Chosen(gs, names, j) <==> j == FirstNamed(gs, names[0]) || Chosen(next, names[1..], j)
  {
    SameFirst(gs, next, gs[j].name);
    assert gs[j].name in names <==> gs[j].name == names[0] || gs[j].name in names[1..];
  }

  lemma {:induction false} SameHits(gs: seq<Group>, hs: seq<Group>, names: seq<string>, i: nat)
    requires |gs| == |hs| && forall j :: 0 <= j < |gs| ==> gs[j].name == hs[j].name
    ensures Hits(gs, names, i) == Hits(hs, names, i)
    decreases |names|
  {
    if names != [] {
      SameFirst(gs, hs, names[0]);
      SameHits(gs, hs, names[1..], i);
    }
  }

  lemma {:induction false} JoinsFirst(list: string, name: string, n: nat)
    ensures Joins(Joined(list, name), name, n) == Joins(list, name, n + 1)
    ensures |Joined(list, name)| <= |Joins(list, name, n + 1)|
  {
    if n > 0 {
      JoinsFirst(list, name, n - 1);
    }
  }

  ghost predicate Adds(gs: seq<Group>, name: string, user: string, j: nat)
    requires j < |gs|
  {
    j == FirstNamed(gs, name) && user !in Segments(gs[j].members)
  }

  /** What adding to the group of one name does to each group. */
  lemma OneAdded(gs: seq<Group>, name: string, user: string, next: seq<Group>, j: nat)
    requires AddOne(gs, name, user) == Done(next) && j < |gs|
    ensures |next| == |gs| && next[j].name == gs[j].name && next[j].gid == gs[j].gid
    ensures next[j].members == if Adds(gs, name, user, j) then Joined(gs[j].members, user) else gs[j].members
  {
  }

  /** Once appended a user is found, unless the name has a comma. */
  lemma FoundAfter(list: string, user: string)
    requires user != []
    ensures user in Segments(Joined(list, user)) <==> Free(user, COMMA)
    ensures user in Segments(list) ==> Free(user, COMMA)
  {
    SelfInSegments(user);
    JoinedParts(list, user, user);
    if user in Segments(list) {
      SegmentsHaveNoComma(list, user);
    }
  }

  /** What one name adds, the others add the less. */
  lemma TimesAfter(gs: seq<Group>, names: seq<string>, user: string, next: seq<Group>, j: nat)
    requires user != [] && names != [] && AddOne(gs, names[0], user) == Done(next) && j < |gs|
    ensures |next| == |gs|
    ensures Times(gs, names, user, j) == Times(next, names[1..], user, j) + if Adds(gs, names[0], user, j) then 1 else 0
  {
    forall i | 0 <= i < |gs| ensures |next| == |gs| && gs[i].name == next[i].name {
      OneAdded(gs, names[0], user, next, i);
    }
    OneAdded(gs, names[0], user, next, j);
    FoundAfter(gs[j].members, user);
    ChosenAfter(gs, names, next, j);
    SameHits(gs, next, names[1..], j);
  }

  lemma GrownAfter(gs: seq<Group>, names: seq<string>, user: string, next: seq<Group>, j: nat)
    requires user != [] && names != [] && AddOne(gs, names[0], user) == Done(next) && j < |gs|
    ensures |next| == |gs| && gs[j].(members := Grown(gs, names, user, j)) == next[j].(members := Grown(next, names[1..], user, j))
    ensures (Times(gs, names, user, j) > 0 ==> |Grown(gs, names, user, j)| < MEMBERS_MAX)
       <==> (Times(next, names[1..], user, j) > 0 ==> |Grown(next, names[1..], user, j)| < MEMBERS_MAX)
  {
    OneAdded(gs, names[0], user, next, j);
    TimesAfter(gs, names, user, next, j);
    JoinsFirst(gs[j].members, user, Times(next, names[1..], user, j));
  }

  lemma PossibleAfter(gs: seq<Group>, names: seq<string>, user: string, next: seq<Group>)
    requires user != [] && names != [] && AddOne(gs, names[0], user) == Done(next)
    ensures Possible(gs, names, user) <==> Possible(next, names[1..], user)
  {
    forall j | 0 <= j < |gs|
      ensures (Times(gs, names, user, j) > 0 ==> |Grown(gs, names, user, j)| < MEMBERS_MAX)
         <==> (Times(next, names[1..], user, j) > 0 ==> |Grown(next, names[1..], user, j)| < MEMBERS_MAX)
    {
      GrownAfter(gs, names, user, next, j);
    }
    forall k | 0 <= k < |names| ensures FirstNamed(gs, names[k]) == FirstNamed(next, names[k]) {
      SameFirst(gs, next, names[k]);
    }
    assert forall k :: 0 <= k < |names[1..]| ==> names[1..][k] == names[k + 1];
  }

  /** What cannot be added at once makes the whole impossible. */
  lemma FirstFails(gs: seq<Group>, names: seq<string>, user: string)
    requires user != [] && names != [] && AddOne(gs, names[0], user).Fault?
    ensures !Possible(gs, names, user)
  {
    var i := FirstNamed(gs, names[0]);
    if i < |gs| {
      assert names[0] in names && Times(gs, names, user, i) > 0;
      JoinsFirst(gs[i].members, user, Times(gs, names, user, i) - 1);
    }
  }

  /** Adding succeeds exactly when it can, and then every list is the old one with the user appended as often as that. */
  lemma {:induction false} AddAllExact(gs: seq<Group>, names: seq<string>, user: string)
    requires user != []
    ensures AddAll(gs, names, user).Done? <==> Possible(gs, names, user)
    ensures AddAll(gs, names, user).Done? ==> Placed(gs, names, user, AddAll(gs, names, user).groups)
    decreases |names|
  {
    if names == [] {
    } else if AddOne(gs, names[0], user).Fault? {
      FirstFails(gs, names, user);
    } else {
      var next := AddOne(gs, names[0], user).groups;
      AddAllExact(next, names[1..], user);
      PossibleAfter(gs, names, user, next);
      forall j | 0 <= j < |gs|
        ensures |next| == |gs| && gs[j].(members := Grown(gs, names, user, j)) == next[j].(members := Grown(next, names[1..], user, j))
      {
        GrownAfter(gs, names, user, next, j);
      }
    }
  }

  /** Who is in a list after that: those who were, and in a chosen group every part of the user's name. */
  lemma {:induction false} GrownNames(gs: seq<Group>, names: seq<string>, user: string, i: nat, u: string)
    requires user != [] && u != [] && i < |gs|
    ensures u in Segments(Grown(gs, names, user, i))
       <==> u in Segments(gs[i].members) || (Chosen(gs, names, i) && u in Segments(user))
  {
    var n := Times(gs, names, user, i);
    JoinsNames(gs[i].members, user, n, u);
    HitsIffChosen(gs, names, i);
    if user in Segments(gs[i].members) {
      SegmentsHaveNoComma(gs[i].members, user);
      OneSegment(user);
    }
  }

  lemma {:induction false} JoinsNames(list: string, name: string, n: nat, u: string)
    requires u != []
    ensures u in Segments(Joins(list, name, n)) <==> u in Segments(list) || (n > 0 && u in Segments(name))
  {
    if n > 0 {
      var most := Joins(list, name, n - 1);
      assert u in Segments(most) <==> u in Segments(list) || (n > 1 && u in Segments(name)) by {
        JoinsNames(list, name, n - 1, u);
      }
      assert Joins(list, name, n) == Joined(most, name);
      JoinedParts(most, name, u);
    }
  }

  lemma {:induction false} HitsIffChosen(gs: seq<Group>, names: seq<string>, i: nat)
    requires i < |gs|
    ensures Hits(gs, names, i) > 0 <==> Chosen(gs, names, i)
    decreases |names|
  {
    if names != [] {
      HitsIffChosen(gs, names[1..], i);
      assert gs[i].name in names <==> gs[i].name == names[0] || gs[i].name in names[1..];
    }
  }

  // ----- usermod -G -----

  /** The names strtok takes from a list. */
  function Tokens(s: string): seq<string>
    decreases |s|
  {
    var (t, rest) := Strtok(s, COMMA);
    if t == None then [] else [t.value] + Tokens(rest)
  }

  lemma SkipComma(s: string)
    requires s != [] && s[0] == ','
    ensures Tokens(s) == Tokens(s[1..])
  {
    assert s[Span(s, COMMA)..] == s[1..][Span(s[1..], COMMA)..];
  }

  lemma FirstToken(s: string)
    requires s != [] && s[0] != ','
    ensures var k := CSpan(s, COMMA);
            Tokens(s) == [s[..k]] + if k < |s| then Tokens(s[k + 1..]) else []
  {
    assert s[0..] == s;
    assert Tokens([]) == [];
  }

  /** They are the names the list holds, leaving out empty ones. */
  lemma {:induction false} TokensAreSegments(s: string, u: string)
    ensures u in Tokens(s) <==> u != [] && u in Segments(s)
    decreases |s|
  {
    if s == [] {
      assert s[0..] == [];
    } else if s[0] == ',' {
      SkipComma(s);
      TokensAreSegments(s[1..], u);
      assert s[..0] == [];
    } else {
      FirstToken(s);
      var k := CSpan(s, COMMA);
      if k < |s| {
        TokensAreSegments(s[k + 1..], u);
      }
    }
  }

  /** strlcpy into a buffer of MEMBERS_MAX. */
  function Clipped(csv: string): string {
    if |csv| >= MEMBERS_MAX then csv[..MEMBERS_MAX - 1] else csv
  }

  function StartingFrom(gs: seq<Group>, user: string, append: bool): seq<Group> {
    if append then gs else Stripped(gs, user)
  }

  function SetGroups(gs: seq<Group>, user: string, csv: string, append: bool): Outcome {
    AddAll(StartingFrom(gs, user, append), Tokens(Clipped(csv)), user)
  }

  ghost predicate Names(csv: string, name: string) {
    name != [] && name in Segments(Clipped(csv))
  }

  /** Whether a group is the one its name in the list stands for: the first of that name. */
  ghost predicate Asked(gs: seq<Group>, csv: string, i: nat)
    requires i < |gs|
  {
    Names(csv, gs[i].name) && FirstNamed(gs, gs[i].name) == i
  }

  lemma AskedIsChosen(gs: seq<Group>, user: string, csv: string, append: bool, i: nat)
    requires i < |gs|
    ensures |StartingFrom(gs, user, append)| == |gs|
    ensures Chosen(StartingFrom(gs, user, append), Tokens(Clipped(csv)), i) <==> Asked(gs, csv, i)
  {
    TokensAreSegments(Clipped(csv), gs[i].name);
    SameFirst(gs, StartingFrom(gs, user, append), gs[i].name);
  }

  /**
   When the call succeeds each list names whom it named before, but not the user unless
   appending, and in the groups asked for every part of the user's name: the user alone, if
   there is no comma in it.
   */
  lemma SetGroupsExact(gs: seq<Group>, user: string, csv: string, append: bool, i: nat, u: string)
    requires user != [] && i < |gs| && u != [] && SetGroups(gs, user, csv, append).Done?
    ensures var r := SetGroups(gs, user, csv, append).groups;
            && |r| == |gs| && r[i].name == gs[i].name && r[i].gid == gs[i].gid
            && (u in Segments(r[i].members) <==>
                  || (u in Segments(gs[i].members) && (append || u != user))
                  || (Asked(gs, csv, i) && u in Segments(user)))
  {
    var (base, names) := (StartingFrom(gs, user, append), Tokens(Clipped(csv)));
    AddAllExact(base, names, user);
    AskedIsChosen(gs, user, csv, append, i);
    GrownNames(base, names, user, i, u);
    if !append {
      StrippedNames(gs, user, i, u);
    }
  }

  /**
   The membership a successful call promises, for every name: it holds if and only if the name
   has no comma or no group was asked for.
   */
  lemma SetGroupsHolds(gs: seq<Group>, user: string, csv: string, append: bool)
    requires user != [] && SetGroups(gs, user, csv, append).Done?
    ensures var r := SetGroups(gs, user, csv, append).groups;
            && |r| == |gs|
            && ((forall i :: 0 <= i < |gs| ==>
                   (user in Segments(r[i].members) <==> Asked(gs, csv, i) || (append && user in Segments(gs[i].members))))
                <==> Free(user, COMMA) || forall i :: 0 <= i < |gs| ==> !Asked(gs, csv, i))
  {
    var r := SetGroups(gs, user, csv, append).groups;
    AddAllExact(StartingFrom(gs, user, append), Tokens(Clipped(csv)), user);
    SelfInSegments(user);
    forall i | 0 <= i < |gs|
      ensures user in Segments(r[i].members) <==> (append && user in Segments(gs[i].members)) || (Asked(gs, csv, i) && Free(user, COMMA))
      ensures user in Segments(gs[i].members) ==> Free(user, COMMA)
    {
      SetGroupsExact(gs, user, csv, append, i, user);
      if user in Segments(gs[i].members) {
        SegmentsHaveNoComma(gs[i].members, user);
      }
    }
  }

  ghost predicate Listed(gs: seq<Group>, csv: string, i: nat)
    requires i < |gs|
  {
    gs[i].name != [] && gs[i].name in Segments(csv)
  }

  /**
   Replacing makes the user a member of exactly the groups whose names are listed if and only
   if the name has no comma, the list is still whole where it is cut, and each group listed is
   the first of its name; or no group is listed at all.
   */
  lemma ExactlyTheNamed(gs: seq<Group>, user: string, csv: string)
    requires user != [] && SetGroups(gs, user, csv, false).Done?
    ensures var r := SetGroups(gs, user, csv, false).groups;
            && |r| == |gs|
            && ((forall i :: 0 <= i < |gs| ==> (user in Segments(r[i].members) <==> Listed(gs, csv, i)))
                <==> (forall i :: 0 <= i < |gs| ==>
                        (Listed(gs, csv, i) <==>
                           Free(user, COMMA) && Listed(gs, Clipped(csv), i) && FirstNamed(gs, gs[i].name) == i)))
  {
    var r := SetGroups(gs, user, csv, false).groups;
    AddAllExact(StartingFrom(gs, user, false), Tokens(Clipped(csv)), user);
    SelfInSegments(user);
    forall i | 0 <= i < |gs|
      ensures user in Segments(r[i].members)
         <==> Free(user, COMMA) && Listed(gs, Clipped(csv), i) && FirstNamed(gs, gs[i].name) == i
    {
      SetGroupsExact(gs, user, csv, false, i, user);
    }
  }

  /** It succeeds exactly when every name is a group's and every list that grows has the room. */
  lemma SetGroupsSucceeds(gs: seq<Group>, user: string, csv: string, append: bool)
    requires user != []
    ensures SetGroups(gs, user, csv, append).Done? <==> Possible(StartingFrom(gs, user, append), Tokens(Clipped(csv)), user)
  {
    AddAllExact(StartingFrom(gs, user, append), Tokens(Clipped(csv)), user);
  }

  /** A list that fills the buffer hides what comes after it. */
  lemma CutShort(gs: seq<Group>, user: string, csv: string, more: string, append: bool)
    requires |csv| == MEMBERS_MAX - 1
    ensures SetGroups(gs, user, csv + more, append) == SetGroups(gs, user, csv, append)
  {
    assert (csv + more)[..MEMBERS_MAX - 1] == csv;
    assert more == [] ==> csv + more == csv;
  }

  method FindGroup(g: array<Group>, count: nat, name: string) returns (i: nat)
    requires count <= g.Length
    ensures i == FirstNamed(g[..count], name)
  {
    i := 0;
    while i < count && g[i].name != name
      invariant i <= count && forall j :: 0 <= j < i ==> g[j].name != name
    {
      i := i + 1;
    }
    FirstNamedIs(g[..count], name, i);
  }

  method AppendMember(members: string, user: string) returns (r: string, full: bool)
    requires |members| < MEMBERS_MAX
    ensures full <==> |Joined(members, user)| >= MEMBERS_MAX
    ensures !full ==> r == Joined(members, user)
  {
    var text := (if members == [] then [] else [',']) + user;
    assert members + text == Joined(members, user);
    r := Printed(members, text);
    full := |text| >= MEMBERS_MAX - |members|;
  }

  method AddToGroup(g: array<Group>, count: nat, name: string, user: string) returns (err: Error)
    requires count <= g.Length && Fit(g[..count])
    modifies g
    ensures err != Fine ==> AddOne(old(g[..count]), name, user) == Fault(err)
    ensures err == Fine ==> AddOne(old(g[..count]), name, user) == Done(g[..count]) && Fit(g[..count])
    ensures g[count..] == old(g[count..])
  {
    ghost var was := g[..count];
    var i := FindGroup(g, count, name);
    if i == count {
      return NotFound;
    }
    var found := MemberOf(g[i].members, user);
    if found {
      return Fine;
    }
    var members, full := AppendMember(g[i].members, user);
    if full {
      return NoMem;
    }
    g[i] := g[i].(members := members);
    assert g[..count] == was[i := g[i]];
    err := Fine;
  }

  method SetGroupsIn(g: array<Group>, count: nat, user: string, csv: string, append: bool) returns (err: Error)
    requires count <= g.Length && Fit(g[..count])
    modifies g
    ensures err != Fine ==> SetGroups(old(g[..count]), user, csv, append) == Fault(err)
    ensures err == Fine ==> SetGroups(old(g[..count]), user, csv, append) == Done(g[..count]) && Fit(g[..count])
  {
    if !append {
      MembershipStrip(g, count, user);
    }
    ghost var base := g[..count];
    ghost var names := Tokens(Clipped(csv));
    err := Fine;
    var (name, rest) := Strtok(Clipped(csv), COMMA);
    while name.Some? && err == Fine
      invariant err == Fine ==> Fit(g[..count])
      invariant err == Fine ==>
                  AddAll(base, names, user) == AddAll(g[..count], if name.Some? then [name.value] + Tokens(rest) else [], user)
      invariant err != Fine ==> AddAll(base, names, user) == Fault(err)
      decreases |rest|, name.Some?, err == Fine
    {
      var todo := [name.value] + Tokens(rest);
      assert todo[0] == name.value && todo[1..] == Tokens(rest);
      err := AddToGroup(g, count, name.value, user);
      var next := Strtok(rest, COMMA);
      name, rest := next.0, next.1;
    }
  }
}
