/**
 What each account command does to the records, said of the records themselves: which error
 comes when, what a success adds, changes or takes away, and that all else stays.
 */
module AccountEffects {
  import opened Collections
  import opened PasswdCodec
  import opened Groups
  import opened GroupCodec
  import opened Accounts

  // ----- Lists -----

  lemma KeepOne<T>(x: T, keep: T -> bool)
    ensures Keep([x], keep) == if keep(x) then [x] else []
  {
    assert [x][1..] == [];
  }

  /** What is kept of two lists is kept of each, in order. */
  lemma {:induction false} KeepConcat<T>(a: seq<T>, b: seq<T>, keep: T -> bool)
    ensures Keep(a + b, keep) == Keep(a, keep) + Keep(b, keep)
  {
    if a == [] {
      assert a + b == b;
    } else {
      var head := if keep(a[0]) then [a[0]] else [];
      assert (a + b)[1..] == a[1..] + b;
      KeepConcat(a[1..], b, keep);
      assert Keep(a + b, keep) == head + (Keep(a[1..], keep) + Keep(b, keep));
      Associates(head, Keep(a[1..], keep), Keep(b, keep));
    }
  }

  lemma NoAccount(accounts: seq<Record>, name: string)
    ensures IndexOf(accounts, name) == |accounts| <==> forall a :: a in accounts ==> a.name != name
  {
    var i := IndexOf(accounts, name);
    if i < |accounts| {
      assert accounts[i] in accounts;
    }
  }

  /** The first account of the name, which is the one every command finds. */
  ghost predicate IsFirst(accounts: seq<Record>, name: string, i: int) {
    0 <= i < |accounts| && accounts[i].name == name && forall j :: 0 <= j < i ==> accounts[j].name != name
  }

  lemma FirstIs(accounts: seq<Record>, name: string, i: nat)
    requires IsFirst(accounts, name, i)
    ensures IndexOf(accounts, name) == i
  {
    IndexOfIs(accounts, name, i);
  }

  lemma NoGroup(groups: seq<Group>, name: string)
    ensures FirstNamed(groups, name) == |groups| <==> forall g :: g in groups ==> g.name != name
  {
    var i := FirstNamed(groups, name);
    if i < |groups| {
      assert groups[i] in groups;
    }
  }

  // ----- Ids -----

  /** Nothing in either file has the id, as a uid or as a gid. */
  ghost predicate Unused(s: State, id: nat) {
    && (forall a :: a in s.accounts ==> a.uid != id && a.gid != id)
    && (forall g :: g in s.groups ==> g.gid != id)
  }

  lemma TakenMeans(s: State, id: nat)
    ensures Taken(s, id) <==> !Unused(s, id)
  {
    if !Unused(s, id) {
      if a :| a in s.accounts && (a.uid == id || a.gid == id) {
        var i :| 0 <= i < |s.accounts| && s.accounts[i] == a;
        assert HasId(s.accounts[i], id);
      } else {
        var g :| g in s.groups && g.gid == id;
        var i :| 0 <= i < |s.groups| && s.groups[i] == g;
        assert GidOf(s.groups[i]) == id;
      }
    }
  }

  /** The lowest unused id of the range: 100 to 999 for the system, 1000 to 65533 for people. */
  ghost predicate IsNextId(s: State, system: bool, id: nat) {
    && (if system then 100 <= id <= 999 else 1000 <= id <= 65533)
    && Unused(s, id)
    && forall k {:trigger Unused(s, k)} :: (if system then 100 else 1000) <= k < id ==> !Unused(s, k)
  }

  lemma NextIdIs(s: State, system: bool)
    requires NextFree(s, First(system), Last(system)).Some?
    ensures IsNextId(s, system, NextFree(s, First(system), Last(system)).value)
  {
    var id := NextFree(s, First(system), Last(system)).value;
    TakenMeans(s, id);
    forall k: nat | First(system) <= k < id ensures !Unused(s, k) {
      TakenMeans(s, k);
    }
  }

  ghost predicate ProperName(name: string) {
    1 <= |name| <= 16
  }

  // ----- useradd -----

  /** The account useradd makes: locked, without a hash, uid and gid the same, a home of its own for people. */
  ghost predicate IsNewAccount(a: Record, name: string, system: bool, id: nat) {
    && a.name == name && a.uid == id && a.gid == id
    && a.locked && a.iters == 0 && a.hash == Zeros(HASH_LEN) && a.salt == Zeros(SALT_LEN)
    && a.home == if system then "/" else "/home/" + name
  }

  lemma AddUserRefuses(s: State, name: string, system: bool, io: Io)
    requires |s.accounts| <= MAX_ACCOUNTS && |s.groups| <= MAX_GROUPS
    ensures var (t, err) := AddUser(s, name, system, io);
            && (err != Fine ==> t == s)
            && (!ProperName(name) ==> err == InvalidArg)
            && (ProperName(name) && (exists a :: a in s.accounts && a.name == name) ==> err == InvalidState)
            && (ProperName(name) && (forall a :: a in s.accounts ==> a.name != name) ==>
                  err == if |s.accounts| == 8 then NoMem else if !io.accounts then Failed else Fine)
  {
    NoAccount(s.accounts, name);
    IdIsAlwaysFree(s, system);
  }

  lemma AddUserDoes(s: State, name: string, system: bool, io: Io) returns (a: Record)
    requires AddUser(s, name, system, io).1 == Fine
    ensures IsNextId(s, system, a.uid) && IsNewAccount(a, name, system, a.uid)
    ensures AddUser(s, name, system, io).0.accounts == s.accounts + [a]
    ensures AddUser(s, name, system, io).0.groups
         == if |s.groups| < 12 && io.groups then s.groups + [Group(name, a.uid, [])] else s.groups
  {
    NextIdIs(s, system);
    var t := AddUser(s, name, system, io).0;
    a := t.accounts[|s.accounts|];
  }

  // ----- groupadd and groupdel -----

  lemma AddGroupRefuses(s: State, name: string, system: bool, io: Io)
    requires |s.accounts| <= MAX_ACCOUNTS && |s.groups| <= MAX_GROUPS
    ensures var (t, err) := AddGroup(s, name, system, io);
            && (err != Fine ==> t == s)
            && (!ProperName(name) ==> err == InvalidArg)
            && (ProperName(name) && (exists g :: g in s.groups && g.name == name) ==> err == InvalidState)
            && (ProperName(name) && (forall g :: g in s.groups ==> g.name != name) ==>
                  err == if |s.groups| == 12 then NoMem else if !io.groups then Failed else Fine)
  {
    NoGroup(s.groups, name);
    IdIsAlwaysFree(s, system);
  }

  lemma AddGroupDoes(s: State, name: string, system: bool, io: Io) returns (gid: nat)
    requires AddGroup(s, name, system, io).1 == Fine
    ensures IsNextId(s, system, gid)
    ensures AddGroup(s, name, system, io).0 == State(s.accounts, s.groups + [Group(name, gid, [])])
  {
    NextIdIs(s, system);
    gid := NextFree(s, First(system), Last(system)).value;
  }

  lemma DelGroupDoes(s: State, name: string, io: Io, g: Group)
    ensures var (t, err) := DelGroup(s, name, io);
            && err == (if forall h :: h in s.groups ==> h.name != name then NotFound else if io.groups then Fine else Failed)
            && t.accounts == s.accounts
            && (err != Fine ==> t == s)
            && (err == Fine ==> (g in t.groups <==> g in s.groups && g.name != name))
  {
    NoGroup(s.groups, name);
    KeepIn(s.groups, OtherGroup(name), g);
  }

  // ----- userdel -----

  lemma DelUserRefuses(s: State, name: string, io: Io)
    ensures var (t, err) := DelUser(s, name, io);
            && (err != Fine ==> t == s)
            && ((forall a :: a in s.accounts ==> a.name != name) ==> err == NotFound)
            && (forall i :: IsFirst(s.accounts, name, i) ==>
                  err == if s.accounts[i].uid == 0 then NotAllowed else if !io.accounts then Failed else Fine)
  {
    NoAccount(s.accounts, name);
    forall i | IsFirst(s.accounts, name, i) ensures IndexOf(s.accounts, name) == i {
      FirstIs(s.accounts, name, i);
    }
  }

  /** All other accounts stay. */
  lemma DelUserDoes(s: State, name: string, io: Io, a: Record)
    requires DelUser(s, name, io).1 == Fine
    ensures a in DelUser(s, name, io).0.accounts <==> a in s.accounts && a.name != name
  {
    KeepIn(s.accounts, OtherAccount(name), a);
  }

  /** Whose groups the two group writes leave, if they come off: no group of the name, and no list with it. */
  lemma DelUserGroups(s: State, name: string, io: Io, g: Group)
    requires DelUser(s, name, io).1 == Fine && g in DelUser(s, name, io).0.groups
    ensures io.again ==> g.name != name
    ensures io.groups && name != [] ==> name !in Segments(g.members)
  {
    var stripped := if io.groups then Stripped(s.groups, name) else s.groups;
    KeepIn(stripped, OtherGroup(name), g);
    assert g in stripped;
    var i :| 0 <= i < |stripped| && stripped[i] == g;
    if io.groups && name != [] {
      StrippedNames(s.groups, name, i, name);
    }
  }

  /** And every other group is there, with every other member. */
  lemma DelUserKeepsGroup(s: State, name: string, io: Io, i: nat, u: string) returns (g: Group)
    requires DelUser(s, name, io).1 == Fine && i < |s.groups| && s.groups[i].name != name && u != []
    ensures g in DelUser(s, name, io).0.groups && g.name == s.groups[i].name && g.gid == s.groups[i].gid
    ensures u != name ==> (u in Segments(g.members) <==> u in Segments(s.groups[i].members))
  {
    var stripped := if io.groups then Stripped(s.groups, name) else s.groups;
    g := stripped[i];
    assert g in stripped;
    KeepIn(stripped, OtherGroup(name), g);
    if io.groups {
      StrippedNames(s.groups, name, i, u);
    }
  }

  // ----- passwd -----

  /** `t` is `s` with account `i` replaced by one of the same name, ids and home. */
  ghost predicate OnlyChanges(s: State, t: State, i: nat)
    requires i < |s.accounts|
  {
    && t.groups == s.groups && |t.accounts| == |s.accounts|
    && (forall j :: 0 <= j < |s.accounts| && j != i ==> t.accounts[j] == s.accounts[j])
    && var (a, b) := (s.accounts[i], t.accounts[i]);
       b.name == a.name && b.uid == a.uid && b.gid == a.gid && b.home == a.home
  }

  lemma PasswordRefused(s: State, name: string, empty: bool, secret: Option<Secret>, io: Io)
    ensures var (t, err) := ChangePassword(s, name, empty, secret, io);
            && (err != Fine ==> t == s)
            && (empty ==> err == InvalidArg)
            && (!empty && (forall a :: a in s.accounts ==> a.name != name) ==> err == NotFound)
            && (!empty && (exists a :: a in s.accounts && a.name == name) ==>
                  err == if secret == None || !io.accounts then Failed else Fine)
  {
    NoAccount(s.accounts, name);
  }

  /** A password change that succeeds stores exactly the new salt and hash, and unlocks the account. */
  lemma PasswordChanged(s: State, name: string, empty: bool, p: Secret, io: Io, i: nat)
    requires IsFirst(s.accounts, name, i) && ChangePassword(s, name, empty, Some(p), io).1 == Fine
    ensures var t := ChangePassword(s, name, empty, Some(p), io).0;
            && OnlyChanges(s, t, i) && IsFirst(t.accounts, name, i)
            && t.accounts[i].salt == p.salt && t.accounts[i].hash == p.hash
            && t.accounts[i].iters == 20000 && !t.accounts[i].locked
  {
    FirstIs(s.accounts, name, i);
  }

  /** Locking leaves the account locked and without a hash, and a locked one as it is. */
  lemma AccountLocked(s: State, name: string, io: Io, i: nat)
    requires IsFirst(s.accounts, name, i) && LockUser(s, name, io).1 == Fine
    ensures var t := LockUser(s, name, io).0;
            && OnlyChanges(s, t, i) && IsFirst(t.accounts, name, i) && t.accounts[i].locked
            && (!s.accounts[i].locked ==>
                  t.accounts[i].hash == Zeros(HASH_LEN) && t.accounts[i].salt == Zeros(SALT_LEN) && t.accounts[i].iters == 0)
            && (s.accounts[i].locked ==> t == s)
  {
    FirstIs(s.accounts, name, i);
  }

  lemma LockRefused(s: State, name: string, io: Io)
    ensures var (t, err) := LockUser(s, name, io);
            && (err != Fine ==> t == s)
            && ((forall a :: a in s.accounts ==> a.name != name) ==> err == NotFound)
            && (forall i :: IsFirst(s.accounts, name, i) ==> err == if s.accounts[i].locked || io.accounts then Fine else Failed)
  {
    NoAccount(s.accounts, name);
    forall i | IsFirst(s.accounts, name, i) ensures IndexOf(s.accounts, name) == i {
      FirstIs(s.accounts, name, i);
    }
  }

  // ----- usermod -----

  /** Only a user there is gets groups, and all of it or nothing is stored. */
  lemma MembershipDoes(s: State, name: string, csv: string, append: bool, io: Io)
    ensures var (t, err) := ChangeGroups(s, name, csv, append, io);
            && t.accounts == s.accounts && (err != Fine ==> t == s)
            && ((forall a :: a in s.accounts ==> a.name != name) ==> err == NotFound)
            && ((exists a :: a in s.accounts && a.name == name) ==>
                  if SetGroups(s.groups, name, csv, append).Done? then
                    if io.groups then err == Fine && t.groups == SetGroups(s.groups, name, csv, append).groups else err == Failed
                  else err == SetGroups(s.groups, name, csv, append).error)
  {
    NoAccount(s.accounts, name);
  }
}
