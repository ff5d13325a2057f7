/**
 Accounts and groups as the account commands change them, on the records the two files
 hold: what each command does, and what every run of them keeps.
 */
module Accounts {
  import opened Collections
  import opened LibC
  import opened PasswdCodec
  import opened LineFile
  import opened Groups
  import opened GroupCodec

  const UID_ROOT := 0
  const UID_FIRST := 1000
  const UID_SYSTEM_FIRST := 100
  const UID_SYSTEM_LAST := 999
  const UID_NOBODY := 65534
  const SUDO_GID := 27
  const PBKDF2_ITERS := 20000

  datatype State = State(accounts: seq<Record>, groups: seq<Group>)

  // ----- Lists -----

  /** The elements that satisfy `keep`, in order. */
  function Keep<T>(s: seq<T>, keep: T -> bool): (r: seq<T>)
    ensures |r| <= |s|
  {
    if s == [] then [] else (if keep(s[0]) then [s[0]] else []) + Keep(s[1..], keep)
  }

  ghost predicate Distinct<T, K>(s: seq<T>, key: T -> K) {
    forall i, j :: 0 <= i < j < |s| ==> key(s[i]) != key(s[j])
  }

  lemma {:induction false} KeepIn<T>(s: seq<T>, keep: T -> bool, x: T)
    ensures x in Keep(s, keep) <==> x in s && keep(x)
  {
    if s != [] {
      KeepIn(s[1..], keep, x);
      assert x in s <==> x == s[0] || x in s[1..];
    }
  }

  lemma {:induction false} KeepDistinct<T, K>(s: seq<T>, keep: T -> bool, key: T -> K)
    requires Distinct(s, key)
    ensures Distinct(Keep(s, keep), key)
  {
    if s != [] {
      var rest := Keep(s[1..], keep);
      KeepDistinct(s[1..], keep, key);
      forall j | 0 <= j < |rest| ensures key(rest[j]) != key(s[0]) {
        KeepIn(s[1..], keep, rest[j]);
      }
    }
  }

  lemma {:induction false} KeepAll<T>(s: seq<T>, keep: T -> bool)
    requires forall i :: 0 <= i < |s| ==> keep(s[i])
    ensures Keep(s, keep) == s
  {
    if s != [] {
      KeepAll(s[1..], keep);
    }
  }

  lemma DistinctAppend<T, K>(s: seq<T>, x: T, key: T -> K)
    requires Distinct(s, key) && forall i :: 0 <= i < |s| ==> key(s[i]) != key(x)
    ensures Distinct(s + [x], key)
  {
  }

  lemma DistinctUpdate<T, K>(s: seq<T>, i: nat, x: T, key: T -> K)
    requires i < |s| && Distinct(s, key) && key(s[i]) == key(x)
    ensures Distinct(s[i := x], key)
  {
  }

  // ----- Lookups -----

  function NameOf(r: Record): string { r.name }
  function UidOf(r: Record): nat { r.uid }
  function PrimaryOf(r: Record): nat { r.gid }
  function GidOf(g: Group): nat { g.gid }

  /** Where the first account of a name is; past the end when there is none. */
  function IndexOf(accounts: seq<Record>, name: string): (i: nat)
    ensures i <= |accounts|
    ensures i < |accounts| ==> accounts[i].name == name
    ensures forall j :: 0 <= j < i ==> accounts[j].name != name
  {
    if accounts == [] || accounts[0].name == name then 0 else 1 + IndexOf(accounts[1..], name)
  }

  lemma {:induction false} IndexOfIs(accounts: seq<Record>, name: string, i: nat)
    requires i <= |accounts| && (i < |accounts| ==> accounts[i].name == name)
    requires forall j :: 0 <= j < i ==> accounts[j].name != name
    ensures IndexOf(accounts, name) == i
  {
    if i > 0 {
      IndexOfIs(accounts[1..], name, i - 1);
    }
  }

  predicate HasId(r: Record, id: nat) {
    r.uid == id || r.gid == id
  }

  predicate Taken(s: State, id: nat) {
    (exists i :: 0 <= i < |s.accounts| && HasId(s.accounts[i], id)) || (exists i :: 0 <= i < |s.groups| && GidOf(s.groups[i]) == id)
  }

  /** The lowest id in a range that neither file uses. */
  function NextFree(s: State, lo: nat, hi: nat): (r: Option<nat>)
    ensures r.Some? ==> lo <= r.value <= hi && !Taken(s, r.value) && forall id :: lo <= id < r.value ==> Taken(s, id)
    ensures r.None? ==> forall id :: lo <= id <= hi ==> Taken(s, id)
    decreases hi + 1 - lo
  {
    if lo > hi then None else if !Taken(s, lo) then Some(lo) else NextFree(s, lo + 1, hi)
  }

  function First(system: bool): nat { if system then UID_SYSTEM_FIRST else UID_FIRST }
  function Last(system: bool): nat { if system then UID_SYSTEM_LAST else UID_NOBODY - 1 }

  // ----- What each command does -----

  /** Whether each rewrite of a file comes off: of the accounts, of the groups, and of the groups again. */
  datatype Io = Io(accounts: bool, groups: bool, again: bool)

  datatype Secret = Secret(salt: seq<Byte>, hash: seq<Byte>)

  datatype Event =
    | UserAdd(name: string, system: bool, io: Io)
    | UserDel(name: string, io: Io)
    | GroupAdd(name: string, system: bool, io: Io)
    | GroupDel(name: string, io: Io)
    | SetPassword(name: string, empty: bool, secret: Option<Secret>, io: Io)
    | Lock(name: string, io: Io)
    | SetMembership(name: string, csv: string, append: bool, io: Io)

  function Locked(name: string, home: string, uid: nat, gid: nat): Record {
    Record(name, 0, Zeros(SALT_LEN), Zeros(HASH_LEN), home, uid, gid, true)
  }

  function WithSecret(a: Record, p: Secret): Record {
    Record(a.name, PBKDF2_ITERS, p.salt, p.hash, a.home, a.uid, a.gid, false)
  }

  function HomeOf(name: string, system: bool): string {
    if system then "/" else "/home/" + name
  }

  predicate BadName(name: string) {
    name == [] || |name| >= USER_MAX
  }

  /** The record of a name replaced, or one more. */
  function Upsert(accounts: seq<Record>, rec: Record): Option<seq<Record>> {
    var i := IndexOf(accounts, rec.name);
    if i < |accounts| then Some(accounts[i := rec])
    else if |accounts| >= MAX_ACCOUNTS then None
    else Some(accounts + [rec])
  }

  function StoreRecord(s: State, rec: Record, io: bool): (State, Error) {
    match Upsert(s.accounts, rec)
    case None => (s, NoMem)
    case Some(accounts) => if io then (s.(accounts := accounts), Fine) else (s, Failed)
  }

  function AddUser(s: State, name: string, system: bool, io: Io): (State, Error) {
    if BadName(name) then (s, InvalidArg)
    else if IndexOf(s.accounts, name) < |s.accounts| then (s, InvalidState)
    else match NextFree(s, First(system), Last(system))
      case None => (s, NotFound)
      case Some(uid) =>
        var (t, err) := StoreRecord(s, Locked(name, HomeOf(name, system), uid, uid), io.accounts);
        if err == Fine && |s.groups| < MAX_GROUPS && io.groups then (t.(groups := s.groups + [Group(name, uid, [])]), Fine)
        else (t, err)
  }

  function OtherAccount(name: string): Record -> bool { (r: Record) => r.name != name }
  function OtherGroup(name: string): Group -> bool { (g: Group) => g.name != name }

  function DelUser(s: State, name: string, io: Io): (State, Error) {
    var i := IndexOf(s.accounts, name);
    if i == |s.accounts| then (s, NotFound)
    else if s.accounts[i].uid == UID_ROOT then (s, NotAllowed)
    else if !io.accounts then (s, Failed)
    else
      var stripped := if io.groups then Stripped(s.groups, name) else s.groups;
      (State(Keep(s.accounts, OtherAccount(name)),
             if io.again then Keep(stripped, OtherGroup(name)) else stripped), Fine)
  }

  function AddGroup(s: State, name: string, system: bool, io: Io): (State, Error) {
    if BadName(name) then (s, InvalidArg)
    else if FirstNamed(s.groups, name) < |s.groups| then (s, InvalidState)
    else if |s.groups| >= MAX_GROUPS then (s, NoMem)
    else match NextFree(s, First(system), Last(system))
      case None => (s, NotFound)
      case Some(gid) => if io.groups then (s.(groups := s.groups + [Group(name, gid, [])]), Fine) else (s, Failed)
  }

  function DelGroup(s: State, name: string, io: Io): (State, Error) {
    if FirstNamed(s.groups, name) == |s.groups| then (s, NotFound)
    else if !io.groups then (s, Failed)
    else (s.(groups := Keep(s.groups, OtherGroup(name))), Fine)
  }

  function ChangePassword(s: State, name: string, empty: bool, secret: Option<Secret>, io: Io): (State, Error) {
    var i := IndexOf(s.accounts, name);
    if empty then (s, InvalidArg)
    else if i == |s.accounts| then (s, NotFound)
    else match secret
      case None => (s, Failed)
      case Some(p) => StoreRecord(s, WithSecret(s.accounts[i], p), io.accounts)
  }

  function LockUser(s: State, name: string, io: Io): (State, Error) {
    var i := IndexOf(s.accounts, name);
    if i == |s.accounts| then (s, NotFound)
    else if s.accounts[i].locked then (s, Fine)
    else StoreRecord(s, Locked(name, s.accounts[i].home, s.accounts[i].uid, s.accounts[i].gid), io.accounts)
  }

  function ChangeGroups(s: State, name: string, csv: string, append: bool, io: Io): (State, Error) {
    if IndexOf(s.accounts, name) == |s.accounts| then (s, NotFound)
    else match SetGroups(s.groups, name, csv, append)
      case Fault(e) => (s, e)
      case Done(groups) => if io.groups then (s.(groups := groups), Fine) else (s, Failed)
  }

  function Step(s: State, e: Event): (State, Error) {
    match e
    case UserAdd(name, system, io) => AddUser(s, name, system, io)
    case UserDel(name, io) => DelUser(s, name, io)
    case GroupAdd(name, system, io) => AddGroup(s, name, system, io)
    case GroupDel(name, io) => DelGroup(s, name, io)
    case SetPassword(name, empty, secret, io) => ChangePassword(s, name, empty, secret, io)
    case Lock(name, io) => LockUser(s, name, io)
    case SetMembership(name, csv, append, io) => ChangeGroups(s, name, csv, append, io)
  }

  function Run(s: State, events: seq<Event>): State
    decreases |events|
  {
    if events == [] then s else Run(Step(s, events[0]).0, events[1..])
  }

  // ----- What every run keeps -----

  ghost predicate OwnGroup(a: Record, g: Group) {
    g.gid == a.gid ==> g.name == a.name
  }

  ghost predicate Inv(s: State) {
    && |s.accounts| <= MAX_ACCOUNTS && |s.groups| <= MAX_GROUPS
    && Distinct(s.accounts, NameOf) && Distinct(s.accounts, UidOf) && Distinct(s.groups, GidOf)
    && (forall a :: a in s.accounts ==> a.gid == a.uid)
    && (forall a, g :: a in s.accounts && g in s.groups ==> OwnGroup(a, g))
    && (exists a :: a in s.accounts && a.uid == UID_ROOT)
    && Fit(s.groups)
  }

  lemma RelistedKeeps(s: State, groups: seq<Group>)
    requires Inv(s) && |groups| == |s.groups| && Fit(groups)
    requires forall i :: 0 <= i < |groups| ==> groups[i].name == s.groups[i].name && groups[i].gid == s.groups[i].gid
    ensures Inv(s.(groups := groups))
  {
    forall a, g | a in s.accounts && g in groups ensures OwnGroup(a, g) {
      var i :| 0 <= i < |groups| && groups[i] == g;
      assert s.groups[i] in s.groups;
      assert OwnGroup(a, s.groups[i]);
    }
  }

  lemma FewerGroupsKeep(s: State, keep: Group -> bool)
    requires Inv(s)
    ensures Inv(s.(groups := Keep(s.groups, keep)))
  {
    var groups := Keep(s.groups, keep);
    KeepDistinct(s.groups, keep, GidOf);
    forall g | g in groups ensures g in s.groups {
      KeepIn(s.groups, keep, g);
    }
    forall i | 0 <= i < |groups| ensures |groups[i].members| < MEMBERS_MAX {
      assert groups[i] in groups;
    }
  }

  lemma FewerAccountsKeep(s: State, keep: Record -> bool)
    requires Inv(s) && forall a :: a in s.accounts && a.uid == UID_ROOT ==> keep(a)
    ensures Inv(s.(accounts := Keep(s.accounts, keep)))
  {
    var accounts := Keep(s.accounts, keep);
    KeepDistinct(s.accounts, keep, NameOf);
    KeepDistinct(s.accounts, keep, UidOf);
    forall a ensures a in accounts <==> a in s.accounts && keep(a) {
      KeepIn(s.accounts, keep, a);
    }
    var root :| root in s.accounts && root.uid == UID_ROOT;
    assert root in accounts;
  }

  lemma FreeId(s: State, id: nat)
    requires !Taken(s, id)
    ensures forall a :: a in s.accounts ==> a.uid != id && a.gid != id
    ensures forall g :: g in s.groups ==> g.gid != id
  {
    forall a | a in s.accounts ensures a.uid != id && a.gid != id {
      var i :| 0 <= i < |s.accounts| && s.accounts[i] == a;
      assert !HasId(s.accounts[i], id);
    }
    forall g | g in s.groups ensures g.gid != id {
      var i :| 0 <= i < |s.groups| && s.groups[i] == g;
      assert GidOf(s.groups[i]) != id;
    }
  }

  lemma NewAccountKeeps(s: State, a: Record)
    requires Inv(s) && |s.accounts| < MAX_ACCOUNTS
    requires IndexOf(s.accounts, a.name) == |s.accounts| && a.gid == a.uid && !Taken(s, a.uid)
    ensures Inv(s.(accounts := s.accounts + [a]))
  {
    FreeId(s, a.uid);
    DistinctAppend(s.accounts, a, NameOf);
    DistinctAppend(s.accounts, a, UidOf);
    var root :| root in s.accounts && root.uid == UID_ROOT;
    assert root in s.accounts + [a];
  }

  lemma NewGroupKeeps(s: State, g: Group)
    requires Inv(s) && |s.groups| < MAX_GROUPS && |g.members| < MEMBERS_MAX
    requires forall a :: a in s.accounts ==> OwnGroup(a, g)
    requires forall h :: h in s.groups ==> h.gid != g.gid
    ensures Inv(s.(groups := s.groups + [g]))
  {
    DistinctAppend(s.groups, g, GidOf);
  }

  lemma AddUserKeeps(s: State, name: string, system: bool, io: Io)
    requires Inv(s)
    ensures Inv(AddUser(s, name, system, io).0)
  {
    var free := NextFree(s, First(system), Last(system));
    var (t, err) := AddUser(s, name, system, io);
    if t != s {
      var a := Locked(name, HomeOf(name, system), free.value, free.value);
      NewAccountKeeps(s, a);
      FreeId(s, a.uid);
      if t.groups != s.groups {
        NewGroupKeeps(s.(accounts := s.accounts + [a]), Group(name, a.uid, []));
      }
    }
  }

  lemma StripKeeps(s: State, user: string)
    requires Inv(s)
    ensures Inv(s.(groups := Stripped(s.groups, user)))
  {
    forall i | 0 <= i < |s.groups| ensures |Stripped(s.groups, user)[i].members| < MEMBERS_MAX {
      StrippedNames(s.groups, user, i, "x");
    }
    RelistedKeeps(s, Stripped(s.groups, user));
  }

  /** Only the account of uid 0 has the name found at it. */
  lemma OtherThanRoot(s: State, name: string)
    requires Inv(s) && IndexOf(s.accounts, name) < |s.accounts|
    requires s.accounts[IndexOf(s.accounts, name)].uid != UID_ROOT
    ensures forall a :: a in s.accounts && a.uid == UID_ROOT ==> a.name != name
  {
    var i := IndexOf(s.accounts, name);
    forall a | a in s.accounts && a.uid == UID_ROOT ensures a.name != name {
      var j :| 0 <= j < |s.accounts| && s.accounts[j] == a;
      assert NameOf(s.accounts[i]) == name;
      assert NameOf(s.accounts[j]) == name ==> i == j;
    }
  }

  lemma DelUserKeeps(s: State, name: string, io: Io)
    requires Inv(s)
    ensures Inv(DelUser(s, name, io).0)
  {
    if DelUser(s, name, io).1 == Fine {
      OtherThanRoot(s, name);
      FewerAccountsKeep(s, OtherAccount(name));
      var s1 := s.(accounts := Keep(s.accounts, OtherAccount(name)));
      var s2 := if io.groups then s1.(groups := Stripped(s1.groups, name)) else s1;
      StripKeeps(s1, name);
      FewerGroupsKeep(s2, OtherGroup(name));
    }
  }

  lemma AddGroupKeeps(s: State, name: string, system: bool, io: Io)
    requires Inv(s)
    ensures Inv(AddGroup(s, name, system, io).0)
  {
    if AddGroup(s, name, system, io).1 == Fine {
      var gid := NextFree(s, First(system), Last(system)).value;
      FreeId(s, gid);
      NewGroupKeeps(s, Group(name, gid, []));
    }
  }

  /** Rewriting an account's record with the same ids. */
  lemma RewriteKeeps(s: State, rec: Record, io: bool)
    requires Inv(s)
    requires var i := IndexOf(s.accounts, rec.name);
             i < |s.accounts| && s.accounts[i].uid == rec.uid && s.accounts[i].gid == rec.gid
    ensures Inv(StoreRecord(s, rec, io).0)
  {
    var i := IndexOf(s.accounts, rec.name);
    var accounts := s.accounts[i := rec];
    DistinctUpdate(s.accounts, i, rec, NameOf);
    DistinctUpdate(s.accounts, i, rec, UidOf);
    assert s.accounts[i] in s.accounts;
    forall a | a in accounts ensures a.gid == a.uid && forall g :: g in s.groups ==> OwnGroup(a, g) {
      if a == rec {
        forall g | g in s.groups ensures OwnGroup(a, g) {
          assert OwnGroup(s.accounts[i], g);
        }
      }
    }
    var root :| root in s.accounts && root.uid == UID_ROOT;
    var j :| 0 <= j < |s.accounts| && s.accounts[j] == root;
    assert accounts[j] in accounts && accounts[j].uid == UID_ROOT;
  }

  lemma {:induction false} AddAllShape(gs: seq<Group>, names: seq<string>, user: string)
    requires Fit(gs) && AddAll(gs, names, user).Done?
    ensures var r := AddAll(gs, names, user).groups;
            && |r| == |gs| && Fit(r)
            && forall i :: 0 <= i < |gs| ==> r[i].name == gs[i].name && r[i].gid == gs[i].gid
    decreases |names|
  {
    if names != [] {
      AddAllShape(AddOne(gs, names[0], user).groups, names[1..], user);
    }
  }

  lemma ChangeGroupsKeeps(s: State, name: string, csv: string, append: bool, io: Io)
    requires Inv(s)
    ensures Inv(ChangeGroups(s, name, csv, append, io).0)
  {
    var out := SetGroups(s.groups, name, csv, append);
    if out.Done? {
      StripKeeps(s, name);
      AddAllShape(StartingFrom(s.groups, name, append), Tokens(Clipped(csv)), name);
      RelistedKeeps(s, out.groups);
    }
  }

  lemma ChangePasswordKeeps(s: State, name: string, empty: bool, secret: Option<Secret>, io: Io)
    requires Inv(s)
    ensures Inv(ChangePassword(s, name, empty, secret, io).0)
  {
    var i := IndexOf(s.accounts, name);
    if i < |s.accounts| && secret.Some? {
      RewriteKeeps(s, WithSecret(s.accounts[i], secret.value), io.accounts);
    }
  }

  lemma LockUserKeeps(s: State, name: string, io: Io)
    requires Inv(s)
    ensures Inv(LockUser(s, name, io).0)
  {
    var i := IndexOf(s.accounts, name);
    if i < |s.accounts| {
      RewriteKeeps(s, Locked(name, s.accounts[i].home, s.accounts[i].uid, s.accounts[i].gid), io.accounts);
    }
  }

  lemma DelGroupKeeps(s: State, name: string, io: Io)
    requires Inv(s)
    ensures Inv(DelGroup(s, name, io).0)
  {
    FewerGroupsKeep(s, OtherGroup(name));
  }

  lemma StepKeepsInv(s: State, e: Event)
    requires Inv(s)
    ensures Inv(Step(s, e).0)
  {
    match e
    case UserAdd(name, system, io) => AddUserKeeps(s, name, system, io);
    case UserDel(name, io) => DelUserKeeps(s, name, io);
    case GroupAdd(name, system, io) => AddGroupKeeps(s, name, system, io);
    case GroupDel(name, io) => DelGroupKeeps(s, name, io);
    case SetPassword(name, empty, secret, io) => ChangePasswordKeeps(s, name, empty, secret, io);
    case Lock(name, io) => LockUserKeeps(s, name, io);
    case SetMembership(name, csv, append, io) => ChangeGroupsKeeps(s, name, csv, append, io);
  }

  lemma {:induction false} RunKeepsInv(s: State, events: seq<Event>)
    requires Inv(s)
    ensures Inv(Run(s, events))
    decreases |events|
  {
    if events != [] {
      StepKeepsInv(s, events[0]);
      RunKeepsInv(Step(s, events[0]).0, events[1..]);
    }
  }

  /** What a first boot writes: the default account, root locked, and their groups. */
  function Seeded(secret: Secret): State {
    State([Record("esp", PBKDF2_ITERS, secret.salt, secret.hash, "/home/esp", UID_FIRST, UID_FIRST, false),
           Locked("root", "/", UID_ROOT, UID_ROOT)],
          [Group("root", UID_ROOT, []), Group("sudo", SUDO_GID, "esp"), Group("esp", UID_FIRST, [])])
  }

  /** From a first boot, whatever commands are given and whichever writes fail. */
  lemma EveryRunKeepsInv(secret: Secret, events: seq<Event>)
    ensures Inv(Run(Seeded(secret), events))
  {
    var s := Seeded(secret);
    assert s.accounts[1] in s.accounts && s.accounts[1].uid == UID_ROOT;
    assert NameOf(s.accounts[0]) != NameOf(s.accounts[1]) by {
      assert "esp"[0] != "root"[0];
    }
    RunKeepsInv(s, events);
  }

  // ----- Two short runs -----

  const ALL_WRITES := Io(true, true, true)

  lemma EspIsFirst(secret: Secret)
    ensures IndexOf(Seeded(secret).accounts, "esp") == 0 && FirstNamed(Seeded(secret).groups, "bob") == 3
    ensures IndexOf(Seeded(secret).accounts, "bob") == 2
  {
    assert "esp"[0] == 'e' && "root"[0] == 'r' && "bob"[0] == 'b' && "sudo"[0] == 's';
    assert forall a :: a in Seeded(secret).accounts ==> a.name != "bob";
  }

  lemma TakenIs(s: State, id: nat, i: nat)
    requires i < |s.groups| && s.groups[i].gid == id
    ensures Taken(s, id)
  {
    assert GidOf(s.groups[i]) == id;
  }

  lemma LowestFree(s: State, lo: nat, hi: nat, id: nat)
    requires lo <= id <= hi && !Taken(s, id) && forall k :: lo <= k < id ==> Taken(s, k)
    ensures NextFree(s, lo, hi) == Some(id)
  {
    var r := NextFree(s, lo, hi);
    assert r.Some? ==> r.value >= id;
  }

  /** A group and then a user of one name: the user's own group is a second one of it. */
  lemma TwoGroupsOfOneName(secret: Secret)
    ensures var s := Run(Seeded(secret), [GroupAdd("bob", false, ALL_WRITES), UserAdd("bob", false, ALL_WRITES)]);
            s.groups == Seeded(secret).groups + [Group("bob", 1001, []), Group("bob", 1002, [])]
  {
    var s := Seeded(secret);
    EspIsFirst(secret);
    TakenIs(s, 1000, 2);
    LowestFree(s, UID_FIRST, UID_NOBODY - 1, 1001);
    var s1 := s.(groups := s.groups + [Group("bob", 1001, [])]);
    assert Step(s, GroupAdd("bob", false, ALL_WRITES)) == (s1, Fine);
    TakenIs(s1, 1000, 2);
    TakenIs(s1, 1001, 3);
    LowestFree(s1, UID_FIRST, UID_NOBODY - 1, 1002);
    var s2 := Step(s1, UserAdd("bob", false, ALL_WRITES)).0;
    RunTwo(s, GroupAdd("bob", false, ALL_WRITES), UserAdd("bob", false, ALL_WRITES));
  }

  lemma RunTwo(s: State, e1: Event, e2: Event)
    ensures Run(s, [e1, e2]) == Step(Step(s, e1).0, e2).0
  {
    assert [e1, e2][1..] == [e2] && [e2][1..] == [];
    var s1 := Step(s, e1).0;
    assert Run(s1, [e2]) == Run(Step(s1, e2).0, []);
  }

  lemma EspGone(secret: Secret)
    ensures var (s1, err) := DelUser(Seeded(secret), "esp", ALL_WRITES);
            && err == Fine && s1.accounts == [Locked("root", "/", UID_ROOT, UID_ROOT)]
            && |s1.groups| <= 3 && !Taken(s1, UID_FIRST)
  {
    var s := Seeded(secret);
    EspIsFirst(secret);
    WithoutEsp(secret);
    var s1 := DelUser(s, "esp", ALL_WRITES).0;
    forall g | g in s1.groups ensures g.gid != UID_FIRST {
      KeepIn(Stripped(s.groups, "esp"), OtherGroup("esp"), g);
      var i :| 0 <= i < |s.groups| && Stripped(s.groups, "esp")[i] == g;
      assert s.groups[i].gid == g.gid && s.groups[i].name == g.name;
    }
  }

  lemma BobAdded(s1: State)
    requires s1.accounts == [Locked("root", "/", UID_ROOT, UID_ROOT)] && |s1.groups| <= 3 && !Taken(s1, UID_FIRST)
    ensures var (s2, err) := AddUser(s1, "bob", false, ALL_WRITES);
            && err == Fine
            && s2.accounts == [Locked("root", "/", UID_ROOT, UID_ROOT), Locked("bob", "/home/bob", UID_FIRST, UID_FIRST)]
  {
    assert IndexOf(s1.accounts, "bob") == 1 by {
      assert s1.accounts[0].name[0] == 'r' && "bob"[0] == 'b';
    }
    LowestFree(s1, UID_FIRST, UID_NOBODY - 1, UID_FIRST);
    assert HomeOf("bob", false) == "/home/bob";
  }

  lemma WithoutEsp(secret: Secret)
    ensures Keep(Seeded(secret).accounts, OtherAccount("esp")) == [Seeded(secret).accounts[1]]
  {
    var accounts := Seeded(secret).accounts;
    assert "esp"[0] == 'e' && "root"[0] == 'r';
    assert accounts[1..] == [accounts[1]] && [accounts[1]][1..] == [];
    assert Keep(accounts[1..], OtherAccount("esp")) == [accounts[1]];
  }

  // ----- An account stays what it is until it is deleted -----

  ghost predicate HasAccount(s: State, name: string, uid: nat, home: string) {
    exists a :: a in s.accounts && a.name == name && a.uid == uid && a.home == home
  }

  lemma Rewritten(s: State, rec: Record, io: bool, a: Record)
    requires Inv(s) && a in s.accounts
    requires var i := IndexOf(s.accounts, rec.name);
             i < |s.accounts| && s.accounts[i].uid == rec.uid && s.accounts[i].home == rec.home
    ensures HasAccount(StoreRecord(s, rec, io).0, a.name, a.uid, a.home)
  {
    var i := IndexOf(s.accounts, rec.name);
    var j :| 0 <= j < |s.accounts| && s.accounts[j] == a;
    assert s.accounts[i := rec][j] in s.accounts[i := rec];
    assert i == j || s.accounts[i := rec][j] == a;
  }

  lemma PasswordKeepsAccount(s: State, name: string, empty: bool, secret: Option<Secret>, io: Io, a: Record)
    requires Inv(s) && a in s.accounts
    ensures HasAccount(ChangePassword(s, name, empty, secret, io).0, a.name, a.uid, a.home)
  {
    var i := IndexOf(s.accounts, name);
    if i < |s.accounts| && secret.Some? {
      Rewritten(s, WithSecret(s.accounts[i], secret.value), io.accounts, a);
    }
  }

  lemma LockKeepsAccount(s: State, name: string, io: Io, a: Record)
    requires Inv(s) && a in s.accounts
    ensures HasAccount(LockUser(s, name, io).0, a.name, a.uid, a.home)
  {
    var i := IndexOf(s.accounts, name);
    if i < |s.accounts| {
      Rewritten(s, Locked(name, s.accounts[i].home, s.accounts[i].uid, s.accounts[i].gid), io.accounts, a);
    }
  }

  lemma DelKeepsAccount(s: State, name: string, io: Io, a: Record)
    requires Inv(s) && a in s.accounts && (name != a.name || a.uid == UID_ROOT)
    ensures a in DelUser(s, name, io).0.accounts
  {
    if DelUser(s, name, io).1 == Fine {
      OtherThanRoot(s, name);
      KeepIn(s.accounts, OtherAccount(name), a);
    }
  }

  lemma AddKeepsAccount(s: State, name: string, system: bool, io: Io, a: Record)
    requires a in s.accounts
    ensures a in AddUser(s, name, system, io).0.accounts
  {
  }

  /** No command moves an account's name, uid or home; only deleting it by name takes it away, and not if it is uid 0. */
  lemma StepKeepsAccount(s: State, e: Event, a: Record)
    requires Inv(s) && a in s.accounts
    requires e.UserDel? ==> e.name != a.name || a.uid == UID_ROOT
    ensures HasAccount(Step(s, e).0, a.name, a.uid, a.home)
  {
    match e
    case UserAdd(name, system, io) => AddKeepsAccount(s, name, system, io, a);
    case UserDel(name, io) => DelKeepsAccount(s, name, io, a);
    case SetPassword(name, empty, secret, io) => PasswordKeepsAccount(s, name, empty, secret, io, a);
    case Lock(name, io) => LockKeepsAccount(s, name, io, a);
    case GroupAdd(_, _, _) =>
    case GroupDel(_, _) =>
    case SetMembership(_, _, _, _) =>
  }

  /** Over a whole run, root among them: the account of uid 0 is never renamed, moved or removed. */
  lemma {:induction false} RootStays(s: State, events: seq<Event>, a: Record)
    requires Inv(s) && a in s.accounts && a.uid == UID_ROOT
    ensures HasAccount(Run(s, events), a.name, UID_ROOT, a.home)
    decreases |events|
  {
    if events != [] {
      var t := Step(s, events[0]).0;
      StepKeepsInv(s, events[0]);
      StepKeepsAccount(s, events[0], a);
      var b :| b in t.accounts && b.name == a.name && b.uid == a.uid && b.home == a.home;
      RootStays(t, events[1..], b);
    }
  }

  // ----- There is always an id to give -----

  ghost function Image<T, K>(s: seq<T>, key: T -> K): set<K> {
    set i | 0 <= i < |s| :: key(s[i])
  }

  ghost function Ids(s: State): set<nat> {
    Image(s.accounts, UidOf) + Image(s.accounts, PrimaryOf) + Image(s.groups, GidOf)
  }

  lemma {:induction false} FewImages<T, K>(s: seq<T>, key: T -> K)
    ensures |Image(s, key)| <= |s|
  {
    if s != [] {
      FewImages(s[1..], key);
      forall k | k in Image(s, key) ensures k in {key(s[0])} + Image(s[1..], key) {
        var i :| 0 <= i < |s| && key(s[i]) == k;
        assert i == 0 || s[i] == s[1..][i - 1];
      }
      SubsetSize(Image(s, key), {key(s[0])} + Image(s[1..], key));
    }
  }

  lemma {:induction false} RangeSize(lo: nat, n: nat, all: set<nat>)
    requires forall id :: lo <= id < lo + n ==> id in all
    ensures n <= |all|
    decreases n
  {
    if n > 0 {
      RangeSize(lo, n - 1, all - {lo + n - 1});
    }
  }

  /** With at most eight accounts and twelve groups, one of the first 29 ids of either range is free. */
  lemma IdIsAlwaysFree(s: State, system: bool)
    requires |s.accounts| <= MAX_ACCOUNTS && |s.groups| <= MAX_GROUPS
    ensures var r := NextFree(s, First(system), Last(system)); r.Some? && r.value <= First(system) + 28
  {
    var lo := First(system);
    var r := NextFree(s, lo, Last(system));
    if r.None? || r.value > lo + 28 {
      forall id | lo <= id < lo + 29 ensures id in Ids(s) {
        assert Taken(s, id);
        TakenIsAnId(s, id);
      }
      RangeSize(lo, 29, Ids(s));
      FewIds(s);
      assert false;
    }
  }

  lemma TakenIsAnId(s: State, id: nat)
    requires Taken(s, id)
    ensures id in Ids(s)
  {
    if i :| 0 <= i < |s.accounts| && HasId(s.accounts[i], id) {
      assert UidOf(s.accounts[i]) == id || PrimaryOf(s.accounts[i]) == id;
    }
  }

  lemma FewIds(s: State)
    ensures |Ids(s)| <= 2 * |s.accounts| + |s.groups|
  {
    FewImages(s.accounts, UidOf);
    FewImages(s.accounts, PrimaryOf);
    FewImages(s.groups, GidOf);
  }

  // ----- The files carry every state a run reaches -----

  ghost predicate PlainName(name: string) {
    Free(name, FIELD_END) && (name != [] ==> name[0] != '#')
  }

  ghost predicate CarriedAccount(a: Record) {
    PasswdCodec.WellFormed(a) && PlainName(a.name)
  }

  ghost predicate CarriedState(s: State) {
    && (forall a :: a in s.accounts ==> CarriedAccount(a))
    && (forall g :: g in s.groups ==> GroupCodec.WellFormed(g))
  }

  ghost predicate ProperSecret(p: Secret) {
    |p.salt| == SALT_LEN && |p.hash| == HASH_LEN
  }

  /** New names are ones a line can hold, and a new hash has its two lengths. */
  ghost predicate PlainEvent(e: Event) {
    match e
    case UserAdd(name, _, _) => PlainName(name)
    case GroupAdd(name, _, _) => PlainName(name)
    case SetPassword(_, _, secret, _) => secret.Some? ==> ProperSecret(secret.value)
    case _ => true
  }

  lemma NewRecordIsCarried(name: string, system: bool, uid: nat)
    requires !BadName(name) && PlainName(name) && uid <= UINT16_MAX
    ensures CarriedAccount(Locked(name, HomeOf(name, system), uid, uid))
  {
    var home := HomeOf(name, system);
    assert Free(home, FIELD_END);
    assert 1 <= |home| < HOME_MAX;
  }

  lemma AddUserCarried(s: State, name: string, system: bool, io: Io)
    requires CarriedState(s) && PlainName(name)
    ensures CarriedState(AddUser(s, name, system, io).0)
  {
    var free := NextFree(s, First(system), Last(system));
    if !BadName(name) && free.Some? {
      NewRecordIsCarried(name, system, free.value);
      assert GroupCodec.WellFormed(Group(name, free.value, []));
    }
  }

  lemma AddGroupCarried(s: State, name: string, system: bool, io: Io)
    requires CarriedState(s) && PlainName(name)
    ensures CarriedState(AddGroup(s, name, system, io).0)
  {
    var free := NextFree(s, First(system), Last(system));
    if !BadName(name) && free.Some? {
      assert GroupCodec.WellFormed(Group(name, free.value, []));
    }
  }

  lemma WithoutIsCarried(g: Group, user: string)
    requires GroupCodec.WellFormed(g)
    ensures GroupCodec.WellFormed(Without(g, user))
  {
    RebuiltFree([], g.members, user, FIELD_END);
    RebuiltFits([], g.members, user);
  }

  lemma StrippedIsCarried(gs: seq<Group>, user: string)
    requires forall g :: g in gs ==> GroupCodec.WellFormed(g)
    ensures forall g :: g in Stripped(gs, user) ==> GroupCodec.WellFormed(g)
  {
    forall g | g in Stripped(gs, user) ensures GroupCodec.WellFormed(g) {
      var i :| 0 <= i < |gs| && Stripped(gs, user)[i] == g;
      WithoutIsCarried(gs[i], user);
    }
  }

  lemma DelUserCarried(s: State, name: string, io: Io)
    requires CarriedState(s)
    ensures CarriedState(DelUser(s, name, io).0)
  {
    var stripped := if io.groups then Stripped(s.groups, name) else s.groups;
    StrippedIsCarried(s.groups, name);
    forall a | a in Keep(s.accounts, OtherAccount(name)) ensures a in s.accounts {
      KeepIn(s.accounts, OtherAccount(name), a);
    }
    forall g | g in Keep(stripped, OtherGroup(name)) ensures g in stripped {
      KeepIn(stripped, OtherGroup(name), g);
    }
  }

  lemma DelGroupCarried(s: State, name: string, io: Io)
    requires CarriedState(s)
    ensures CarriedState(DelGroup(s, name, io).0)
  {
    forall g | g in Keep(s.groups, OtherGroup(name)) ensures g in s.groups {
      KeepIn(s.groups, OtherGroup(name), g);
    }
  }

  lemma RewriteCarried(s: State, rec: Record, io: bool)
    requires CarriedState(s) && CarriedAccount(rec)
    ensures CarriedState(StoreRecord(s, rec, io).0)
  {
  }

  lemma ChangePasswordCarried(s: State, name: string, empty: bool, secret: Option<Secret>, io: Io)
    requires CarriedState(s) && (secret.Some? ==> ProperSecret(secret.value))
    ensures CarriedState(ChangePassword(s, name, empty, secret, io).0)
  {
    var i := IndexOf(s.accounts, name);
    if i < |s.accounts| && secret.Some? {
      assert s.accounts[i] in s.accounts;
      RewriteCarried(s, WithSecret(s.accounts[i], secret.value), io.accounts);
    }
  }

  lemma LockUserCarried(s: State, name: string, io: Io)
    requires CarriedState(s)
    ensures CarriedState(LockUser(s, name, io).0)
  {
    var i := IndexOf(s.accounts, name);
    if i < |s.accounts| {
      assert s.accounts[i] in s.accounts;
      RewriteCarried(s, Locked(name, s.accounts[i].home, s.accounts[i].uid, s.accounts[i].gid), io.accounts);
    }
  }

  lemma {:induction false} AddAllCarried(gs: seq<Group>, names: seq<string>, user: string)
    requires (forall g :: g in gs ==> GroupCodec.WellFormed(g)) && Free(user, FIELD_END) && AddAll(gs, names, user).Done?
    ensures forall g :: g in AddAll(gs, names, user).groups ==> GroupCodec.WellFormed(g)
    decreases |names|
  {
    if names != [] {
      var next := AddOne(gs, names[0], user).groups;
      var i := FirstNamed(gs, names[0]);
      assert gs[i] in gs;
      assert Free(Joined(gs[i].members, user), FIELD_END);
      AddAllCarried(next, names[1..], user);
    }
  }

  lemma ChangeGroupsCarried(s: State, name: string, csv: string, append: bool, io: Io)
    requires CarriedState(s)
    ensures CarriedState(ChangeGroups(s, name, csv, append, io).0)
  {
    var i := IndexOf(s.accounts, name);
    if i < |s.accounts| && SetGroups(s.groups, name, csv, append).Done? {
      assert s.accounts[i] in s.accounts;
      StrippedIsCarried(s.groups, name);
      AddAllCarried(StartingFrom(s.groups, name, append), Tokens(Clipped(csv)), name);
    }
  }

  lemma StepCarried(s: State, e: Event)
    requires CarriedState(s) && PlainEvent(e)
    ensures CarriedState(Step(s, e).0)
  {
    match e
    case UserAdd(name, system, io) => AddUserCarried(s, name, system, io);
    case UserDel(name, io) => DelUserCarried(s, name, io);
    case GroupAdd(name, system, io) => AddGroupCarried(s, name, system, io);
    case GroupDel(name, io) => DelGroupCarried(s, name, io);
    case SetPassword(name, empty, secret, io) => ChangePasswordCarried(s, name, empty, secret, io);
    case Lock(name, io) => LockUserCarried(s, name, io);
    case SetMembership(name, csv, append, io) => ChangeGroupsCarried(s, name, csv, append, io);
  }

  lemma {:induction false} RunCarried(s: State, events: seq<Event>)
    requires CarriedState(s) && forall i :: 0 <= i < |events| ==> PlainEvent(events[i])
    ensures CarriedState(Run(s, events))
    decreases |events|
  {
    if events != [] {
      StepCarried(s, events[0]);
      RunCarried(Step(s, events[0]).0, events[1..]);
    }
  }

  lemma AccountsReadBack(s: State)
    requires CarriedState(s) && |s.accounts| <= MAX_ACCOUNTS
    ensures Loaded(ParseLine, Stored(Format, s.accounts), MAX_ACCOUNTS) == s.accounts
  {
    forall i | 0 <= i < |s.accounts| ensures PasswdCodec.WellFormed(s.accounts[i]) {
      assert CarriedAccount(s.accounts[i]);
    }
    PasswdRoundTrip(s.accounts);
  }

  lemma GroupsReadBack(s: State)
    requires CarriedState(s) && |s.groups| <= MAX_GROUPS
    ensures Loaded(ParseGroup, Stored(FormatGroup, s.groups), MAX_GROUPS) == s.groups
  {
    forall i | 0 <= i < |s.groups| ensures GroupCodec.WellFormed(s.groups[i]) {
      assert s.groups[i] in s.groups;
    }
    GroupRoundTrip(s.groups);
  }

  lemma SeededGroupsAreCarried()
    ensures GroupCodec.WellFormed(Group("root", UID_ROOT, [])) && GroupCodec.WellFormed(Group("sudo", SUDO_GID, "esp"))
    ensures GroupCodec.WellFormed(Group("esp", UID_FIRST, []))
  {
  }

  lemma SeededIsCarried(secret: Secret)
    requires ProperSecret(secret)
    ensures CarriedState(Seeded(secret))
  {
    var s := Seeded(secret);
    assert CarriedAccount(s.accounts[0]);
    assert CarriedAccount(s.accounts[1]);
    SeededGroupsAreCarried();
  }

  /** Every state a run from a first boot reaches survives being written out and read back. */
  lemma EveryRunReadsBack(secret: Secret, events: seq<Event>)
    requires ProperSecret(secret) && forall i :: 0 <= i < |events| ==> PlainEvent(events[i])
    ensures var s := Run(Seeded(secret), events);
            && Loaded(ParseLine, Stored(Format, s.accounts), MAX_ACCOUNTS) == s.accounts
            && Loaded(ParseGroup, Stored(FormatGroup, s.groups), MAX_GROUPS) == s.groups
  {
    SeededIsCarried(secret);
    RunCarried(Seeded(secret), events);
    EveryRunKeepsInv(secret, events);
    AccountsReadBack(Run(Seeded(secret), events));
    GroupsReadBack(Run(Seeded(secret), events));
  }
}
