/**
 The account commands as they run: records loaded into arrays, changed there and stored
 back, and the three caches that every store clears.
 */
module AuthFiles {
  import opened LibC
  import opened Collections
  import opened LineFile
  import opened PasswdCodec
  import opened Groups
  import opened GroupCodec
  import opened Accounts
  import opened AccountTexts

  /** What the account cache keeps of a record. */
  datatype User = User(name: string, home: string, uid: nat, gid: nat)

  function UserOf(r: Record): User {
    User(r.name, r.home, r.uid, r.gid)
  }

  function Users(accounts: seq<Record>): (r: seq<User>)
    ensures |r| == |accounts| && forall i :: 0 <= i < |r| ==> r[i] == UserOf(accounts[i])
  {
    seq(|accounts|, i requires 0 <= i < |accounts| => UserOf(accounts[i]))
  }

  /** The name of the first user of a uid. */
  function NameIn(users: seq<User>, uid: nat): Option<string> {
    if users == [] then None else if users[0].uid == uid then Some(users[0].name) else NameIn(users[1..], uid)
  }

  function GroupIn(groups: seq<Group>, gid: nat): Option<string> {
    if groups == [] then None else if groups[0].gid == gid then Some(groups[0].name) else GroupIn(groups[1..], gid)
  }

  lemma UsersAre(accounts: seq<Record>, i: nat)
    requires i < |accounts|
    ensures var (u, a) := (Users(accounts)[i], accounts[i]);
            u.name == a.name && u.home == a.home && u.uid == a.uid && u.gid == a.gid
  {
  }

  /** The name of a uid is that of the first account with it; there is none exactly when no account has it. */
  lemma {:induction false} NameInIs(users: seq<User>, uid: nat)
    ensures NameIn(users, uid) == None <==> forall u :: u in users ==> u.uid != uid
    ensures NameIn(users, uid).Some? ==>
              exists i :: 0 <= i < |users| && users[i].uid == uid && users[i].name == NameIn(users, uid).value
                          && forall j :: 0 <= j < i ==> users[j].uid != uid
  {
    if users == [] {
    } else if users[0].uid == uid {
      assert users[0] in users;
    } else {
      var rest := users[1..];
      NameInIs(rest, uid);
      assert forall u :: u in users <==> u == users[0] || u in rest;
      if NameIn(rest, uid).Some? {
        var i :| 0 <= i < |rest| && rest[i].uid == uid && rest[i].name == NameIn(rest, uid).value
                 && forall j :: 0 <= j < i ==> rest[j].uid != uid;
        assert users[i + 1] == rest[i] && forall j :: 0 < j < i + 1 ==> users[j] == rest[j - 1];
      }
    }
  }

  /** The name of a gid is that of the first group with it; there is none exactly when no group has it. */
  lemma {:induction false} GroupInIs(groups: seq<Group>, gid: nat)
    ensures GroupIn(groups, gid) == None <==> forall g :: g in groups ==> g.gid != gid
    ensures GroupIn(groups, gid).Some? ==>
              exists i :: 0 <= i < |groups| && groups[i].gid == gid && groups[i].name == GroupIn(groups, gid).value
                          && forall j :: 0 <= j < i ==> groups[j].gid != gid
  {
    if groups == [] {
    } else if groups[0].gid == gid {
      assert groups[0] in groups;
    } else {
      var rest := groups[1..];
      GroupInIs(rest, gid);
      assert forall g :: g in groups <==> g == groups[0] || g in rest;
      if GroupIn(rest, gid).Some? {
        var i :| 0 <= i < |rest| && rest[i].gid == gid && rest[i].name == GroupIn(rest, gid).value
                 && forall j :: 0 <= j < i ==> rest[j].gid != gid;
        assert groups[i + 1] == rest[i] && forall j :: 0 < j < i + 1 ==> groups[j] == rest[j - 1];
      }
    }
  }

  // ----- Who owns a path -----

  /** Whether a path is a directory or under it. */
  predicate Within(path: string, dir: string) {
    dir != [] && (dir == "/" || (dir <= path && (|path| == |dir| || path[|dir|] == '/')))
  }

  /** A path is within the root, the directory itself, or what is reached from it over a slash. */
  lemma WithinMeans(path: string, dir: string)
    ensures Within(path, dir) <==> dir == "/" || (dir != [] && (path == dir || exists rest: string :: path == dir + "/" + rest))
  {
    if Within(path, dir) && dir != "/" && path != dir {
      var rest := path[|dir| + 1..];
      assert path == dir + "/" + rest;
    }
  }

  ghost predicate Beats(users: seq<User>, path: string, k: nat, j: nat)
    requires k < |users| && j < |users|
  {
    Within(path, users[j].home) ==>
      |users[j].home| < |users[k].home| || (|users[j].home| == |users[k].home| && k <= j)
  }

  /** The user whose home holds the path, the longest home winning and the first of equals. */
  ghost predicate IsOwner(users: seq<User>, path: string, k: nat)
    requires k < |users|
  {
    Within(path, users[k].home) && forall j :: 0 <= j < |users| ==> Beats(users, path, k, j)
  }

  method Owner(users: seq<User>, path: string) returns (r: Option<nat>)
    ensures r.Some? ==> r.value < |users| && IsOwner(users, path, r.value)
    ensures r.None? ==> forall j :: 0 <= j < |users| ==> !Within(path, users[j].home)
  {
    r := None;
    var best := 0;
    for i := 0 to |users|
      invariant r.None? ==> forall j :: 0 <= j < i ==> !Within(path, users[j].home)
      invariant r.Some? ==> r.value < i && best == |users[r.value].home| && Within(path, users[r.value].home)
                            && forall j :: 0 <= j < i ==> Beats(users, path, r.value, j)
    {
      if (r.None? || |users[i].home| > best) && Within(path, users[i].home) {
        forall j | 0 <= j < i ensures Beats(users, path, i, j) {
          assert r.Some? ==> Beats(users, path, r.value, j);
        }
        best := |users[i].home|;
        r := Some(i);
      }
    }
  }

  /** At most one user is the owner. */
  lemma OwnerIsUnique(users: seq<User>, path: string, k: nat, j: nat)
    requires k < |users| && j < |users| && IsOwner(users, path, k) && IsOwner(users, path, j)
    ensures k == j
  {
    assert Beats(users, path, k, j) && Beats(users, path, j, k);
  }

  // ----- In-place work on a loaded table -----

  lemma KeepStep<T>(done: seq<T>, s: seq<T>, i: nat, keep: T -> bool)
    requires i < |s|
    ensures done + Keep(s[i..], keep) == (if keep(s[i]) then done + [s[i]] else done) + Keep(s[i + 1..], keep)
  {
    assert s[i..][1..] == s[i + 1..];
    Associates(done, [s[i]], Keep(s[i + 1..], keep));
  }

  method Compact<T>(a: array<T>, n: nat, keep: T -> bool) returns (out: nat)
    requires n <= a.Length
    modifies a
    ensures out <= n && a[..out] == Keep(old(a[..n]), keep)
  {
    ghost var was := a[..n];
    ghost var done: seq<T> := [];
    out := 0;
    assert was[0..] == was && done + Keep(was, keep) == Keep(was, keep);
    for i := 0 to n
      invariant out <= i && a[..out] == done
      invariant forall j :: i <= j < n ==> a[j] == was[j]
      invariant done + Keep(was[i..], keep) == Keep(was, keep)
    {
      KeepStep(done, was, i, keep);
      if keep(a[i]) {
        if out != i {
          a[out] := a[i];
        }
        done := done + [was[i]];
        out := out + 1;
      }
    }
    assert was[n..] == [] && done + [] == done;
  }

  method IndexIn(recs: array<Record>, n: nat, name: string) returns (i: nat)
    requires n <= recs.Length
    ensures i == IndexOf(recs[..n], name)
  {
    i := 0;
    while i < n && recs[i].name != name
      invariant i <= n && forall j :: 0 <= j < i ==> recs[j].name != name
    {
      i := i + 1;
    }
    IndexOfIs(recs[..n], name, i);
  }

  method IsTaken(recs: array<Record>, n: nat, grps: array<Group>, m: nat, id: nat) returns (taken: bool)
    requires n <= recs.Length && m <= grps.Length
    ensures taken == Taken(State(recs[..n], grps[..m]), id)
  {
    taken := false;
    ghost var (accounts, groups) := (recs[..n], grps[..m]);
    var i := 0;
    while i < n && !taken
      invariant i <= n && (taken <==> exists j :: 0 <= j < i && HasId(accounts[j], id))
    {
      taken := recs[i].uid == id || recs[i].gid == id;
      assert taken <==> HasId(accounts[i], id);
      i := i + 1;
    }
    ghost var inAccounts := taken;
    i := 0;
    while i < m && !taken
      invariant i <= m && (taken <==> inAccounts || exists j :: 0 <= j < i && GidOf(groups[j]) == id)
    {
      taken := grps[i].gid == id;
      assert taken <==> GidOf(groups[i]) == id;
      i := i + 1;
    }
  }

  /** A copy of what was read, as a table. */
  method Table<T(0)>(s: seq<T>, size: nat) returns (a: array<T>)
    requires |s| <= size
    ensures fresh(a) && a.Length == size && a[..|s|] == s
  {
    a := new T[size];
    var i := 0;
    while i < |s|
      invariant i <= |s| && a[..i] == s[..i]
    {
      a[i] := s[i];
      i := i + 1;
    }
  }

  // ----- The files and their caches -----

  /** A group read from a line fits its member buffer. */
  ghost predicate Fits(c: Codec) {
    forall line :: c.group(line).Some? ==> ShortList(c.group(line).value)
  }

  predicate ShortList(g: Group) {
    |g.members| < MEMBERS_MAX
  }

  lemma GroupsFit(c: Codec, f: Files)
    requires Fits(c)
    ensures Fit(GroupsIn(c, f))
  {
    LoadedSatisfy(c.group, f.group, MAX_GROUPS, ShortList);
    var gs := GroupsIn(c, f);
    forall i | 0 <= i < |gs| ensures |gs[i].members| < MEMBERS_MAX {
      assert ShortList(gs[i]);
    }
  }

  lemma EspixFits()
    ensures Fits(ESPIX)
  {
  }

  class Auth {
    const codec: Codec
    var passwd: string
    var group: string
    var list: seq<User>
    var listValid: bool
    var nameUid: nat
    var name: string
    var nameValid: bool
    var groupGid: nat
    var groupName: string
    var groupValid: bool

    function Contents(): Files
      reads this
    {
      Files(passwd, group)
    }

    /** A cache that says it is valid agrees with its file. */
    ghost predicate Valid()
      reads this
    {
      && Fits(codec)
      && (listValid ==> list == Users(AccountsIn(codec, Contents())))
      && (nameValid ==> NameIn(Users(AccountsIn(codec, Contents())), nameUid) == Some(name))
      && (groupValid ==> GroupIn(GroupsIn(codec, Contents()), groupGid) == Some(groupName))
    }

    constructor (codec: Codec, f: Files)
      requires Fits(codec)
      ensures Valid() && Contents() == f && this.codec == codec && !listValid && !nameValid && !groupValid
    {
      this.codec, passwd, group := codec, f.passwd, f.group;
      listValid, nameValid, groupValid := false, false, false;
      list, nameUid, name, groupGid, groupName := [], 0, [], 0, [];
    }

    ghost predicate Invalidated()
      reads this
    {
      !listValid && !nameValid && !groupValid
    }

    method CacheInvalidate()
      modifies this
      ensures Invalidated() && Contents() == old(Contents()) && list == old(list)
    {
      listValid, nameValid, groupValid := false, false, false;
    }

    method StoreAccounts(recs: array<Record>, n: nat, io: bool) returns (err: Error)
      requires Valid() && n <= recs.Length
      modifies this
      ensures Valid() && (Contents(), err) == PutAccounts(codec, old(Contents()), recs[..n], io)
      ensures list == old(list) && (io || old(Invalidated()) ==> Invalidated())
    {
      if !io {
        return Failed;
      }
      passwd := StoreAll(codec.line, recs[..n]);
      CacheInvalidate();
      err := Fine;
    }

    method StoreGroups(g: array<Group>, n: nat, io: bool) returns (err: Error)
      requires Valid() && n <= g.Length
      modifies this
      ensures Valid() && (Contents(), err) == PutGroups(codec, old(Contents()), g[..n], io)
      ensures list == old(list) && (io || old(Invalidated()) ==> Invalidated())
    {
      if !io {
        return Failed;
      }
      group := StoreAll(codec.groupLine, g[..n]);
      CacheInvalidate();
      err := Fine;
    }

    method LoadAccounts() returns (recs: array<Record>, n: nat)
      ensures fresh(recs) && recs.Length == MAX_ACCOUNTS && n <= MAX_ACCOUNTS && recs[..n] == AccountsIn(codec, Contents())
    {
      var all := LoadAll(codec.account, passwd, MAX_ACCOUNTS);
      recs := Table(all, MAX_ACCOUNTS);
      n := |all|;
    }

    method LoadGroups() returns (g: array<Group>, n: nat)
      ensures fresh(g) && g.Length == MAX_GROUPS && n <= MAX_GROUPS && g[..n] == GroupsIn(codec, Contents())
    {
      var all := LoadAll(codec.group, group, MAX_GROUPS);
      g := Table(all, MAX_GROUPS);
      n := |all|;
    }

    // ----- Lookups -----

    method Find(name: string) returns (r: Option<Record>)
      ensures r == Lookup(codec, Contents(), name)
    {
      r := FindLine(codec.account, Named(name), passwd);
    }

    /** What the caches' list of accounts is after a refresh that finds memory or not. */
    ghost function Refreshed(mem: bool): seq<User>
      reads this
    {
      if listValid || !mem then list else Users(AccountsIn(codec, Contents()))
    }

    method AccountsRefresh(mem: bool)
      modifies this`list, this`listValid
      ensures list == old(Refreshed(mem)) && listValid == (old(listValid) || mem)
      ensures old(Valid()) ==> Valid()
    {
      if listValid || !mem {
        return;
      }
      var recs, n := LoadAccounts();
      list := UsersOf(recs, n);
      listValid := true;
    }

    predicate NameHit(uid: nat)
      reads this
    {
      nameValid && nameUid == uid
    }

    /** The name of a uid: a fresh scan of the file, unless the refresh it needed ran out of memory. */
    method NameForUid(uid: nat, mem: bool) returns (r: Option<string>)
      modifies this`list, this`listValid, this`nameUid, this`name, this`nameValid
      ensures old(Valid()) && (mem || old(listValid) || old(NameHit(uid))) ==>
                Valid() && r == NameIn(Users(AccountsIn(codec, Contents())), uid)
      ensures r == if old(NameHit(uid)) then Some(old(name)) else NameIn(old(Refreshed(mem)), uid)
      ensures r.Some? ==> NameHit(uid) && r == Some(name)
      ensures !old(NameHit(uid)) ==> list == old(Refreshed(mem))
    {
      if nameValid && nameUid == uid {
        return Some(name);
      }
      AccountsRefresh(mem);
      var i := 0;
      while i < |list|
        invariant i <= |list| && NameIn(list, uid) == NameIn(list[i..], uid)
      {
        if list[i].uid == uid {
          name, nameUid, nameValid := list[i].name, uid, true;
          return Some(name);
        }
        i := i + 1;
      }
      r := None;
    }

    /** The name of a gid: a fresh scan of the file, or none when there is no memory to scan it with. */
    method GroupName(gid: nat, mem: bool) returns (r: Option<string>)
      requires Valid()
      modifies this`groupGid, this`groupName, this`groupValid
      ensures Valid()
      ensures r == if mem || old(groupValid && groupGid == gid) then GroupIn(GroupsIn(codec, Contents()), gid) else None
    {
      if groupValid && groupGid == gid {
        return Some(groupName);
      }
      if !mem {
        return None;
      }
      var g, n := LoadGroups();
      r := GroupNamed(g, n, gid);
      if r.Some? {
        groupName, groupGid, groupValid := r.value, gid, true;
      }
    }

    /** The owner of a path that stores none. */
    method OwnerRule(path: string, mem: bool) returns (r: Option<(nat, nat)>)
      modifies this`list, this`listValid
      ensures old(Valid()) ==> Valid()
      ensures Owns(old(Refreshed(mem)), path, r)
    {
      AccountsRefresh(mem);
      var k := Owner(list, path);
      r := if k.Some? then Some((list[k.value].uid, list[k.value].gid)) else None;
    }

    // ----- Commands -----

    method NextFreeId(lo: nat, hi: nat) returns (r: Option<nat>)
      ensures r == NextFree(Read(codec, Contents()), lo, hi)
    {
      var recs, n := LoadAccounts();
      var grps, m := LoadGroups();
      ghost var s := State(recs[..n], grps[..m]);
      r := None;
      var id := lo;
      while id <= hi && r.None?
        invariant s == State(recs[..n], grps[..m])
        invariant r.None? ==> NextFree(s, lo, hi) == NextFree(s, id, hi)
        invariant r.Some? ==> NextFree(s, lo, hi) == r
        decreases hi + 1 - id
      {
        var taken := IsTaken(recs, n, grps, m, id);
        if !taken {
          r := Some(id);
        }
        id := id + 1;
      }
    }

    method UpsertRecord(rec: Record, io: bool) returns (err: Error)
      requires Valid()
      modifies this
      ensures Valid() && (Contents(), err) == PutRecord(codec, old(Contents()), rec, io)
      ensures list == old(list) && (err == Fine ==> Invalidated())
    {
      var recs, count := LoadAccounts();
      ghost var accounts := recs[..count];
      var i := IndexIn(recs, count, rec.name);
      if i < count {
        recs[i] := rec;
        assert recs[..count] == accounts[i := rec];
      } else {
        if count == MAX_ACCOUNTS {
          return NoMem;
        }
        recs[count] := rec;
        count := count + 1;
        assert recs[..count] == accounts + [rec];
      }
      err := StoreAccounts(recs, count, io);
    }

    method AppendGroup(name: string, gid: nat, io: bool) returns (err: Error)
      requires Valid() && |GroupsIn(codec, Contents())| < MAX_GROUPS
      modifies this
      ensures Valid() && list == old(list)
      ensures (Contents(), err) == PutGroups(codec, old(Contents()), GroupsIn(codec, old(Contents())) + [Group(name, gid, [])], io)
      ensures io || old(Invalidated()) ==> Invalidated()
    {
      var g, count := LoadGroups();
      ghost var groups := g[..count];
      g[count] := Group(name, gid, []);
      assert g[..count + 1] == groups + [Group(name, gid, [])];
      err := StoreGroups(g, count + 1, io);
    }

    /** The account's own group, if there is room for it. */
    method AddOwnGroup(name: string, gid: nat, io: bool)
      requires Valid()
      modifies this
      ensures Valid() && list == old(list) && (old(Invalidated()) ==> Invalidated())
      ensures Contents() == WithOwnGroup(codec, old(Contents()), name, gid, io)
    {
      var g, count := LoadGroups();
      if count < MAX_GROUPS {
        var ignored := AppendGroup(name, gid, io);
      }
    }

    method UserAdd(name: string, system: bool, io: Io) returns (err: Error)
      requires Valid()
      modifies this
      ensures Valid() && (Contents(), err) == AddUserText(codec, old(Contents()), name, system, io)
      ensures list == old(list) && (err == Fine ==> Invalidated())
    {
      if name == [] || |name| >= USER_MAX {
        return InvalidArg;
      }
      var existing := Find(name);
      if existing.Some? {
        return InvalidState;
      }
      var free := NextFreeId(First(system), Last(system));
      if free == None {
        return NotFound;
      }
      err := UpsertRecord(Locked(name, HomeOf(name, system), free.value, free.value), io.accounts);
      if err != Fine {
        return;
      }
      AddOwnGroup(name, free.value, io.groups);
    }

    method GroupAdd(name: string, system: bool, io: bool) returns (err: Error)
      requires Valid()
      modifies this
      ensures Valid() && (Contents(), err) == AddGroupText(codec, old(Contents()), name, system, io)
    {
      if name == [] || |name| >= USER_MAX {
        return InvalidArg;
      }
      var g, count := LoadGroups();
      var i := FindGroup(g, count, name);
      if i < count {
        return InvalidState;
      }
      if count == MAX_GROUPS {
        return NoMem;
      }
      var free := NextFreeId(First(system), Last(system));
      if free == None {
        return NotFound;
      }
      err := AppendGroup(name, free.value, io);
    }

    method GroupDel(name: string, io: bool) returns (err: Error)
      requires Valid()
      modifies this
      ensures Valid() && (Contents(), err) == DelGroupText(codec, old(Contents()), name, io)
      ensures list == old(list) && (old(Invalidated()) ==> Invalidated())
    {
      var g, count := LoadGroups();
      var i := FindGroup(g, count, name);
      var out := Compact(g, count, OtherGroup(name));
      if i == count {
        return NotFound;
      }
      err := StoreGroups(g, out, io);
    }

    method MembershipPurge(user: string, io: bool) returns (err: Error)
      requires Valid()
      modifies this
      ensures Valid() && Contents() == PurgeText(codec, old(Contents()), user, io)
      ensures list == old(list) && (old(Invalidated()) ==> Invalidated())
    {
      var g, count := LoadGroups();
      GroupsFit(codec, Contents());
      MembershipStrip(g, count, user);
      err := StoreGroups(g, count, io);
    }

    method UserDel(name: string, io: Io) returns (err: Error)
      requires Valid()
      modifies this
      ensures Valid() && (Contents(), err) == DelUserText(codec, old(Contents()), name, io)
      ensures list == old(list) && (err == Fine ==> Invalidated())
    {
      var rec := Find(name);
      if rec == None {
        return NotFound;
      }
      if rec.value.uid == UID_ROOT {
        return NotAllowed;
      }
      var recs, count := LoadAccounts();
      var out := Compact(recs, count, OtherAccount(name));
      err := StoreAccounts(recs, out, io.accounts);
      if err != Fine {
        return;
      }
      var ignored := MembershipPurge(name, io.groups);
      ignored := GroupDel(name, io.again);
    }

    method SetPassword(name: string, empty: bool, secret: Option<Secret>, io: bool) returns (err: Error)
      requires Valid()
      modifies this
      ensures Valid() && (Contents(), err) == ChangePasswordText(codec, old(Contents()), name, empty, secret, io)
    {
      if empty {
        return InvalidArg;
      }
      var rec := Find(name);
      if rec == None {
        return NotFound;
      }
      if secret == None {
        return Failed;
      }
      err := UpsertRecord(WithSecret(rec.value, secret.value), io);
    }

    method LockAccount(name: string, io: bool) returns (err: Error)
      requires Valid()
      modifies this
      ensures Valid() && (Contents(), err) == LockUserText(codec, old(Contents()), name, io)
    {
      var rec := Find(name);
      if rec == None {
        return NotFound;
      }
      if rec.value.locked {
        return Fine;
      }
      err := UpsertRecord(Locked(rec.value.name, rec.value.home, rec.value.uid, rec.value.gid), io);
    }

    method SetGroupsOf(user: string, csv: string, append: bool, io: bool) returns (err: Error)
      requires Valid()
      modifies this
      ensures Valid() && (Contents(), err) == ChangeGroupsText(codec, old(Contents()), user, csv, append, io)
    {
      var rec := Find(user);
      if rec == None {
        return NotFound;
      }
      var g, count := LoadGroups();
      GroupsFit(codec, Contents());
      err := SetGroupsIn(g, count, user, csv, append);
      if err == Fine {
        err := StoreGroups(g, count, io);
      }
    }

    // ----- Any interleaving -----

    method Perform(e: Event) returns (err: Error)
      requires Valid()
      modifies this
      ensures Valid() && (Contents(), err) == StepText(codec, old(Contents()), e)
    {
      match e
      case UserAdd(name, system, io) => err := UserAdd(name, system, io);
      case UserDel(name, io) => err := UserDel(name, io);
      case GroupAdd(name, system, io) => err := GroupAdd(name, system, io.groups);
      case GroupDel(name, io) => err := GroupDel(name, io.groups);
      case SetPassword(name, empty, secret, io) => err := SetPassword(name, empty, secret, io.accounts);
      case Lock(name, io) => err := LockAccount(name, io.accounts);
      case SetMembership(name, csv, append, io) => err := SetGroupsOf(name, csv, append, io.groups);
    }

    method Answer(req: Request) returns (a: Reply)
      requires Valid()
      modifies this
      ensures Valid() && Contents() == Advance(codec, old(Contents()), req) && IsFresh(codec, old(Contents()), req, a)
    {
      match req
      case Command(e) =>
        var err := Perform(e);
        a := Code(err);
      case UidName(uid) =>
        var r := NameForUid(uid, true);
        a := Name(r);
      case GidName(gid) =>
        var r := GroupName(gid, true);
        a := Name(r);
      case PathOwner(path) =>
        var r := OwnerRule(path, true);
        a := Ids(r);
    }

    /** Every answer, in any order of commands and lookups, is what the files say at that moment. */
    method Serve(requests: seq<Request>) returns (replies: seq<Reply>)
      requires Valid()
      modifies this
      ensures Valid() && Contents() == Folded(Advancing(codec), old(Contents()), requests)
      ensures EachFits(Advancing(codec), Freshness(codec), old(Contents()), requests, replies)
    {
      replies := [];
      ghost var start := Contents();
      for k := 0 to |requests|
        invariant Valid() && Contents() == Folded(Advancing(codec), start, requests[..k])
        invariant EachFits(Advancing(codec), Freshness(codec), start, requests[..k], replies)
      {
        var a := Answer(requests[k]);
        OneMore(Advancing(codec), Freshness(codec), start, requests, k, replies, a);
        replies := replies + [a];
      }
      assert requests[..|requests|] == requests;
    }
  }

  method UsersOf(recs: array<Record>, n: nat) returns (list: seq<User>)
    requires n <= recs.Length
    ensures list == Users(recs[..n])
  {
    list := [];
    for i := 0 to n
      invariant list == Users(recs[..n])[..i]
    {
      list := list + [UserOf(recs[i])];
    }
  }

  method GroupNamed(g: array<Group>, n: nat, gid: nat) returns (r: Option<string>)
    requires n <= g.Length
    ensures r == GroupIn(g[..n], gid)
  {
    ghost var groups := g[..n];
    var i := 0;
    assert groups[0..] == groups;
    while i < n
      invariant i <= n && GroupIn(groups, gid) == GroupIn(groups[i..], gid)
    {
      if g[i].gid == gid {
        return Some(g[i].name);
      }
      i := i + 1;
    }
    r := None;
  }

  datatype Request = Command(e: Event) | UidName(uid: nat) | GidName(gid: nat) | PathOwner(path: string)
  datatype Reply = Code(err: Error) | Name(name: Option<string>) | Ids(ids: Option<(nat, nat)>)

  function Advance(c: Codec, f: Files, req: Request): Files {
    if req.Command? then StepText(c, f, req.e).0 else f
  }

  function Advancing(c: Codec): (Files, Request) -> Files {
    (f, req) => Advance(c, f, req)
  }

  /** A state after a number of steps. */
  function Folded<S, R>(step: (S, R) -> S, s: S, rs: seq<R>): S {
    if rs == [] then s else step(Folded(step, s, rs[..|rs| - 1]), rs[|rs| - 1])
  }

  /** Each reply fits its request in the state the requests before it lead to. */
  ghost predicate EachFits<S, R, A>(step: (S, R) -> S, fits: (S, R, A) -> bool, s: S, rs: seq<R>, replies: seq<A>) {
    |replies| == |rs| && forall i :: 0 <= i < |rs| ==> fits(Folded(step, s, rs[..i]), rs[i], replies[i])
  }

  lemma OneMore<S, R, A>(step: (S, R) -> S, fits: (S, R, A) -> bool, s: S, rs: seq<R>, k: nat, replies: seq<A>, a: A)
    requires k < |rs| && EachFits(step, fits, s, rs[..k], replies)
    requires fits(Folded(step, s, rs[..k]), rs[k], a)
    ensures EachFits(step, fits, s, rs[..k + 1], replies + [a])
    ensures Folded(step, s, rs[..k + 1]) == step(Folded(step, s, rs[..k]), rs[k])
  {
    assert rs[..k + 1][..k] == rs[..k];
    forall i | 0 <= i < k ensures fits(Folded(step, s, rs[..k + 1][..i]), rs[..k + 1][i], (replies + [a])[i]) {
      assert rs[..k + 1][..i] == rs[..k][..i];
      assert fits(Folded(step, s, rs[..k][..i]), rs[..k][i], replies[i]);
    }
  }

  ghost predicate Owns(users: seq<User>, path: string, ids: Option<(nat, nat)>) {
    if ids.Some? then exists k :: 0 <= k < |users| && IsOwner(users, path, k) && ids.value == (users[k].uid, users[k].gid)
    else forall k :: 0 <= k < |users| ==> !Within(path, users[k].home)
  }

  /** The answer a scan of the files gives, with no cache. */
  ghost predicate IsFresh(c: Codec, f: Files, req: Request, a: Reply) {
    match req
    case Command(e) => a == Code(StepText(c, f, e).1)
    case UidName(uid) => a == Name(NameIn(Users(AccountsIn(c, f)), uid))
    case GidName(gid) => a == Name(GroupIn(GroupsIn(c, f), gid))
    case PathOwner(path) => a.Ids? && Owns(Users(AccountsIn(c, f)), path, a.ids)
  }

  ghost function Freshness(c: Codec): (Files, Request, Reply) -> bool {
    (f, req, a) => IsFresh(c, f, req, a)
  }

  /**
   A refresh that runs out of memory answers from the list of before the last write, and the
   answer then stays in the name cache: with memory again it is still the old name.
   */
  method StaleNameSticks(auth: Auth, uid: nat) returns (first: Option<string>, second: Option<string>)
    requires !auth.listValid && !auth.NameHit(uid) && NameIn(auth.list, uid).Some?
    modifies auth
    ensures first == second == old(NameIn(auth.list, uid)) && auth.Contents() == old(auth.Contents())
  {
    first := auth.NameForUid(uid, false);
    second := auth.NameForUid(uid, true);
  }

  lemma EspDeleted(c: Codec, secret: Secret) returns (s1: State)
    requires Carrier(c) && ProperSecret(secret)
    ensures NameIn(Users(AccountsIn(c, Written(c, Seeded(secret)))), UID_FIRST) == Some("esp")
    ensures DelUserText(c, Written(c, Seeded(secret)), "esp", ALL_WRITES) == (Written(c, s1), Fine) && CarriedState(s1)
    ensures s1.accounts == [Locked("root", "/", UID_ROOT, UID_ROOT)] && |s1.groups| <= 3 && !Taken(s1, UID_FIRST)
  {
    var s := Seeded(secret);
    SeededIsCarried(secret);
    AccountsWritten(c, Written(c, s), s.accounts);
    NameOfTwo(s.accounts, UID_FIRST);
    EspGone(secret);
    DelUserRefines(c, s, "esp", ALL_WRITES);
    DelUserCarried(s, "esp", ALL_WRITES);
    s1 := DelUser(s, "esp", ALL_WRITES).0;
  }

  lemma BobGetsUid(c: Codec, s1: State) returns (f2: Files)
    requires Carrier(c) && CarriedState(s1)
    requires s1.accounts == [Locked("root", "/", UID_ROOT, UID_ROOT)] && |s1.groups| <= 3 && !Taken(s1, UID_FIRST)
    ensures AddUserText(c, Written(c, s1), "bob", false, ALL_WRITES) == (f2, Fine)
    ensures NameIn(Users(AccountsIn(c, f2)), UID_FIRST) == Some("bob")
  {
    BobAdded(s1);
    AddUserRefines(c, s1, "bob", false, ALL_WRITES);
    AddUserCarried(s1, "bob", false, ALL_WRITES);
    var s2 := AddUser(s1, "bob", false, ALL_WRITES).0;
    f2 := Written(c, s2);
    AccountsWritten(c, f2, s2.accounts);
    NameOfTwo(s2.accounts, UID_FIRST);
  }

  lemma NameOfTwo(accounts: seq<Record>, uid: nat)
    requires |accounts| == 2
    ensures NameIn(Users(accounts), uid)
         == if accounts[0].uid == uid then Some(accounts[0].name)
            else if accounts[1].uid == uid then Some(accounts[1].name) else None
  {
    var rest := Users(accounts)[1..];
    assert rest[1..] == [];
    assert NameIn(rest, uid) == if rest[0].uid == uid then Some(rest[0].name) else NameIn(rest[1..], uid);
  }

  /**
   How it comes about: the name of a uid is looked up, its account deleted and another added,
   which gets the uid; without memory for the next lookup the deleted name is the answer, then
   and later, for as long as nothing is written.
   */
  method StaleNameReached(codec: Codec, secret: Secret) returns (auth: Auth, first: Option<string>, second: Option<string>)
    requires Carrier(codec) && Fits(codec) && ProperSecret(secret)
    ensures first == second == Some("esp")
    ensures auth.codec == codec && NameIn(Users(AccountsIn(codec, auth.Contents())), UID_FIRST) == Some("bob")
  {
    ghost var s1 := EspDeleted(codec, secret);
    ghost var f2 := BobGetsUid(codec, s1);
    auth := new Auth(codec, Written(codec, Seeded(secret)));
    var known := auth.NameForUid(UID_FIRST, true);
    var deleted := auth.UserDel("esp", ALL_WRITES);
    var added := auth.UserAdd("bob", false, ALL_WRITES);
    first, second := StaleNameSticks(auth, UID_FIRST);
  }

  /** It does in the files as espix writes them. */
  method StaleNameOfEspix(codec: Codec, secret: Secret) returns (auth: Auth, first: Option<string>, second: Option<string>)
    requires codec == ESPIX && ProperSecret(secret)
    ensures first == second == Some("esp")
    ensures NameIn(Users(AccountsIn(codec, auth.Contents())), UID_FIRST) == Some("bob")
  {
    assert Carrier(codec) by { EspixCarries(); }
    assert Fits(codec) by { EspixFits(); }
    auth, first, second := StaleNameReached(codec, secret);
  }
}
