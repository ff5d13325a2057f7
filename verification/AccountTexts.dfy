/**
 The account commands on the two files as texts: each loads what it needs, by reading the
 lines, and stores what it changed, by printing them. How a line is read and printed is a
 parameter; with a format that carries every record of a state, the texts follow the records.
 */
module AccountTexts {
  import opened LibC
  import opened Collections
  import opened LineFile
  import opened PasswdCodec
  import opened Groups
  import opened GroupCodec
  import opened Accounts

  /** How lines are read and printed. */
  datatype Codec = Codec(account: string -> Option<Record>, line: Record -> string,
                         group: string -> Option<Group>, groupLine: Group -> string)

  datatype Files = Files(passwd: string, group: string)

  function AccountsIn(c: Codec, f: Files): seq<Record> {
    Loaded(c.account, f.passwd, MAX_ACCOUNTS)
  }

  function GroupsIn(c: Codec, f: Files): seq<Group> {
    Loaded(c.group, f.group, MAX_GROUPS)
  }

  /** What the two files read as. */
  function Read(c: Codec, f: Files): State {
    State(AccountsIn(c, f), GroupsIn(c, f))
  }

  function Named(name: string): Record -> bool { (r: Record) => r.name == name }

  function Lookup(c: Codec, f: Files, name: string): Option<Record> {
    Found(c.account, Named(name), f.passwd)
  }

  // ----- The commands -----

  function PutAccounts(c: Codec, f: Files, accounts: seq<Record>, io: bool): (Files, Error) {
    if io then (f.(passwd := Stored(c.line, accounts)), Fine) else (f, Failed)
  }

  function PutGroups(c: Codec, f: Files, groups: seq<Group>, io: bool): (Files, Error) {
    if io then (f.(group := Stored(c.groupLine, groups)), Fine) else (f, Failed)
  }

  function PutRecord(c: Codec, f: Files, rec: Record, io: bool): (Files, Error) {
    match Upsert(AccountsIn(c, f), rec)
    case None => (f, NoMem)
    case Some(accounts) => PutAccounts(c, f, accounts, io)
  }

  function AddUserText(c: Codec, f: Files, name: string, system: bool, io: Io): (Files, Error) {
    if BadName(name) then (f, InvalidArg)
    else if Lookup(c, f, name).Some? then (f, InvalidState)
    else match NextFree(Read(c, f), First(system), Last(system))
      case None => (f, NotFound)
      case Some(uid) =>
        var (g, err) := PutRecord(c, f, Locked(name, HomeOf(name, system), uid, uid), io.accounts);
        if err == Fine then (WithOwnGroup(c, g, name, uid, io.groups), Fine) else (g, err)
  }

  function WithOwnGroup(c: Codec, f: Files, name: string, gid: nat, io: bool): Files {
    var groups := GroupsIn(c, f);
    if |groups| < MAX_GROUPS then PutGroups(c, f, groups + [Group(name, gid, [])], io).0 else f
  }

  function PurgeText(c: Codec, f: Files, name: string, io: bool): Files {
    PutGroups(c, f, Stripped(GroupsIn(c, f), name), io).0
  }

  function DelGroupText(c: Codec, f: Files, name: string, io: bool): (Files, Error) {
    var groups := GroupsIn(c, f);
    if FirstNamed(groups, name) == |groups| then (f, NotFound) else PutGroups(c, f, Keep(groups, OtherGroup(name)), io)
  }

  function DelUserText(c: Codec, f: Files, name: string, io: Io): (Files, Error) {
    var rec := Lookup(c, f, name);
    if rec == None then (f, NotFound)
    else if rec.value.uid == UID_ROOT then (f, NotAllowed)
    else
      var (g, err) := PutAccounts(c, f, Keep(AccountsIn(c, f), OtherAccount(name)), io.accounts);
      if err != Fine then (g, err) else (DelGroupText(c, PurgeText(c, g, name, io.groups), name, io.again).0, Fine)
  }

  function AddGroupText(c: Codec, f: Files, name: string, system: bool, io: bool): (Files, Error) {
    var groups := GroupsIn(c, f);
    if BadName(name) then (f, InvalidArg)
    else if FirstNamed(groups, name) < |groups| then (f, InvalidState)
    else if |groups| >= MAX_GROUPS then (f, NoMem)
    else match NextFree(Read(c, f), First(system), Last(system))
      case None => (f, NotFound)
      case Some(gid) => PutGroups(c, f, groups + [Group(name, gid, [])], io)
  }

  function ChangePasswordText(c: Codec, f: Files, name: string, empty: bool, secret: Option<Secret>, io: bool): (Files, Error) {
    var rec := Lookup(c, f, name);
    if empty then (f, InvalidArg)
    else if rec == None then (f, NotFound)
    else match secret
      case None => (f, Failed)
      case Some(p) => PutRecord(c, f, WithSecret(rec.value, p), io)
  }

  function LockUserText(c: Codec, f: Files, name: string, io: bool): (Files, Error) {
    var rec := Lookup(c, f, name);
    if rec == None then (f, NotFound)
    else if rec.value.locked then (f, Fine)
    else PutRecord(c, f, Locked(rec.value.name, rec.value.home, rec.value.uid, rec.value.gid), io)
  }

  function ChangeGroupsText(c: Codec, f: Files, name: string, csv: string, append: bool, io: bool): (Files, Error) {
    if Lookup(c, f, name) == None then (f, NotFound)
    else match SetGroups(GroupsIn(c, f), name, csv, append)
      case Fault(e) => (f, e)
      case Done(groups) => PutGroups(c, f, groups, io)
  }

  function StepText(c: Codec, f: Files, e: Event): (Files, Error) {
    match e
    case UserAdd(name, system, io) => AddUserText(c, f, name, system, io)
    case UserDel(name, io) => DelUserText(c, f, name, io)
    case GroupAdd(name, system, io) => AddGroupText(c, f, name, system, io.groups)
    case GroupDel(name, io) => DelGroupText(c, f, name, io.groups)
    case SetPassword(name, empty, secret, io) => ChangePasswordText(c, f, name, empty, secret, io.accounts)
    case Lock(name, io) => LockUserText(c, f, name, io.accounts)
    case SetMembership(name, csv, append, io) => ChangeGroupsText(c, f, name, csv, append, io.groups)
  }

  function RunText(c: Codec, f: Files, events: seq<Event>): Files
    decreases |events|
  {
    if events == [] then f else RunText(c, StepText(c, f, events[0]).0, events[1..])
  }

  // ----- The texts follow the records -----

  /** The files that hold a state. */
  function Written(c: Codec, s: State): Files {
    Files(Stored(c.line, s.accounts), Stored(c.groupLine, s.groups))
  }

  /** Every record the commands make is read back from its line. */
  ghost predicate Carrier(c: Codec) {
    && (forall a :: CarriedAccount(a) ==> ReadsBack(c.account, c.line, a))
    && (forall g :: GroupCodec.WellFormed(g) ==> ReadsBack(c.group, c.groupLine, g))
  }

  ghost predicate Sized(s: State) {
    |s.accounts| <= MAX_ACCOUNTS && |s.groups| <= MAX_GROUPS
  }

  lemma {:induction false} AccountsReadable(c: Codec, accounts: seq<Record>)
    requires Carrier(c) && forall a :: a in accounts ==> CarriedAccount(a)
    ensures Readable(c.account, c.line, accounts)
  {
    if accounts != [] {
      assert accounts[0] in accounts;
      AccountsReadable(c, accounts[1..]);
    }
  }

  lemma {:induction false} GroupsReadable(c: Codec, groups: seq<Group>)
    requires Carrier(c) && forall g :: g in groups ==> GroupCodec.WellFormed(g)
    ensures Readable(c.group, c.groupLine, groups)
  {
    if groups != [] {
      assert groups[0] in groups;
      GroupsReadable(c, groups[1..]);
    }
  }

  lemma AccountsWritten(c: Codec, f: Files, accounts: seq<Record>)
    requires Carrier(c) && (forall a :: a in accounts ==> CarriedAccount(a)) && |accounts| <= MAX_ACCOUNTS
    requires f.passwd == Stored(c.line, accounts)
    ensures AccountsIn(c, f) == accounts
  {
    AccountsReadable(c, accounts);
    StoreThenLoad(c.account, c.line, accounts, MAX_ACCOUNTS);
  }

  lemma GroupsWritten(c: Codec, f: Files, groups: seq<Group>)
    requires Carrier(c) && (forall g :: g in groups ==> GroupCodec.WellFormed(g)) && |groups| <= MAX_GROUPS
    requires f.group == Stored(c.groupLine, groups)
    ensures GroupsIn(c, f) == groups
  {
    GroupsReadable(c, groups);
    StoreThenLoad(c.group, c.groupLine, groups, MAX_GROUPS);
  }

  /** A state within the tables that the format carries is what its files read as. */
  lemma ReadWritten(c: Codec, s: State)
    requires Carrier(c) && CarriedState(s) && Sized(s)
    ensures Read(c, Written(c, s)) == s
  {
    AccountsWritten(c, Written(c, s), s.accounts);
    GroupsWritten(c, Written(c, s), s.groups);
  }

  lemma {:induction false} FirstHitIs(accounts: seq<Record>, name: string)
    ensures var i := IndexOf(accounts, name);
            FirstHit(accounts, Named(name)) == if i < |accounts| then Some(accounts[i]) else None
  {
    if accounts != [] && accounts[0].name != name {
      FirstHitIs(accounts[1..], name);
    }
  }

  lemma LookupWritten(c: Codec, s: State, name: string)
    requires Carrier(c) && CarriedState(s)
    ensures var i := IndexOf(s.accounts, name);
            Lookup(c, Written(c, s), name) == if i < |s.accounts| then Some(s.accounts[i]) else None
  {
    AccountsReadable(c, s.accounts);
    FoundStored(c.account, c.line, Named(name), s.accounts);
    FirstHitIs(s.accounts, name);
  }

  ghost predicate Held(c: Codec, s: State) {
    Carrier(c) && CarriedState(s) && Sized(s)
  }

  lemma PutRecordRefines(c: Codec, s: State, rec: Record, io: bool)
    requires Held(c, s)
    ensures var (t, err) := StoreRecord(s, rec, io); PutRecord(c, Written(c, s), rec, io) == (Written(c, t), err)
  {
    AccountsWritten(c, Written(c, s), s.accounts);
  }

  lemma AddUserRefines(c: Codec, s: State, name: string, system: bool, io: Io)
    requires Held(c, s)
    ensures var (t, err) := AddUser(s, name, system, io); AddUserText(c, Written(c, s), name, system, io) == (Written(c, t), err)
  {
    ReadWritten(c, s);
    LookupWritten(c, s, name);
    var free := NextFree(s, First(system), Last(system));
    if free.Some? {
      var rec := Locked(name, HomeOf(name, system), free.value, free.value);
      PutRecordRefines(c, s, rec, io.accounts);
      OwnGroupRefines(c, s, StoreRecord(s, rec, io.accounts).0, name, free.value, io.groups);
    }
  }

  lemma OwnGroupRefines(c: Codec, s: State, t: State, name: string, gid: nat, io: bool)
    requires Held(c, s) && t.groups == s.groups
    ensures WithOwnGroup(c, Written(c, t), name, gid, io)
         == Written(c, if |s.groups| < MAX_GROUPS && io then t.(groups := s.groups + [Group(name, gid, [])]) else t)
  {
    GroupsWritten(c, Written(c, t), s.groups);
  }

  lemma AddGroupRefines(c: Codec, s: State, name: string, system: bool, io: Io)
    requires Held(c, s)
    ensures var (t, err) := AddGroup(s, name, system, io); AddGroupText(c, Written(c, s), name, system, io.groups) == (Written(c, t), err)
  {
    ReadWritten(c, s);
  }

  lemma DelGroupRefines(c: Codec, s: State, name: string, io: Io)
    requires Held(c, s)
    ensures var (t, err) := DelGroup(s, name, io); DelGroupText(c, Written(c, s), name, io.groups) == (Written(c, t), err)
  {
    GroupsWritten(c, Written(c, s), s.groups);
  }

  lemma DelUserRefines(c: Codec, s: State, name: string, io: Io)
    requires Held(c, s)
    ensures var (t, err) := DelUser(s, name, io); DelUserText(c, Written(c, s), name, io) == (Written(c, t), err)
  {
    LookupWritten(c, s, name);
    AccountsWritten(c, Written(c, s), s.accounts);
    if DelUser(s, name, io).1 == Fine {
      var s1 := s.(accounts := Keep(s.accounts, OtherAccount(name)));
      var s2 := if io.groups then s1.(groups := Stripped(s1.groups, name)) else s1;
      GroupsWritten(c, Written(c, s1), s.groups);
      StrippedIsCarried(s.groups, name);
      GroupsWritten(c, Written(c, s2), s2.groups);
      if FirstNamed(s2.groups, name) == |s2.groups| {
        KeepAll(s2.groups, OtherGroup(name));
      }
    }
  }

  lemma ChangePasswordRefines(c: Codec, s: State, name: string, empty: bool, secret: Option<Secret>, io: Io)
    requires Held(c, s)
    ensures var (t, err) := ChangePassword(s, name, empty, secret, io);
            ChangePasswordText(c, Written(c, s), name, empty, secret, io.accounts) == (Written(c, t), err)
  {
    LookupWritten(c, s, name);
    var i := IndexOf(s.accounts, name);
    if i < |s.accounts| && secret.Some? {
      PutRecordRefines(c, s, WithSecret(s.accounts[i], secret.value), io.accounts);
    }
  }

  lemma LockUserRefines(c: Codec, s: State, name: string, io: Io)
    requires Held(c, s)
    ensures var (t, err) := LockUser(s, name, io); LockUserText(c, Written(c, s), name, io.accounts) == (Written(c, t), err)
  {
    LookupWritten(c, s, name);
    var i := IndexOf(s.accounts, name);
    if i < |s.accounts| {
      PutRecordRefines(c, s, Locked(name, s.accounts[i].home, s.accounts[i].uid, s.accounts[i].gid), io.accounts);
    }
  }

  lemma ChangeGroupsRefines(c: Codec, s: State, name: string, csv: string, append: bool, io: Io)
    requires Held(c, s)
    ensures var (t, err) := ChangeGroups(s, name, csv, append, io);
            ChangeGroupsText(c, Written(c, s), name, csv, append, io.groups) == (Written(c, t), err)
  {
    LookupWritten(c, s, name);
    GroupsWritten(c, Written(c, s), s.groups);
  }

  /** On files that hold a state, a command writes the files that hold what it makes of the state. */
  lemma StepTextRefines(c: Codec, s: State, e: Event)
    requires Held(c, s)
    ensures var (t, err) := Step(s, e); StepText(c, Written(c, s), e) == (Written(c, t), err)
  {
    match e
    case UserAdd(name, system, io) => AddUserRefines(c, s, name, system, io);
    case UserDel(name, io) => DelUserRefines(c, s, name, io);
    case GroupAdd(name, system, io) => AddGroupRefines(c, s, name, system, io);
    case GroupDel(name, io) => DelGroupRefines(c, s, name, io);
    case SetPassword(name, empty, secret, io) => ChangePasswordRefines(c, s, name, empty, secret, io);
    case Lock(name, io) => LockUserRefines(c, s, name, io);
    case SetMembership(name, csv, append, io) => ChangeGroupsRefines(c, s, name, csv, append, io);
  }

  lemma {:induction false} RunTextRefines(c: Codec, s: State, events: seq<Event>)
    requires Held(c, s) && Inv(s) && forall i :: 0 <= i < |events| ==> PlainEvent(events[i])
    ensures RunText(c, Written(c, s), events) == Written(c, Run(s, events))
    ensures Read(c, RunText(c, Written(c, s), events)) == Run(s, events)
    decreases |events|
  {
    if events == [] {
      ReadWritten(c, s);
    } else {
      StepTextRefines(c, s, events[0]);
      StepKeepsInv(s, events[0]);
      StepCarried(s, events[0]);
      RunTextRefines(c, Step(s, events[0]).0, events[1..]);
    }
  }

  // ----- The format of the two files -----

  const ESPIX := Codec(ParseLine, Format, ParseGroup, FormatGroup)

  lemma EspixCarries()
    ensures Carrier(ESPIX)
  {
    forall a | CarriedAccount(a) ensures ReadsBack(ParseLine, Format, a) {
      PasswdCodec.LineReadsBack(a);
    }
    forall g | GroupCodec.WellFormed(g) ensures ReadsBack(ParseGroup, FormatGroup, g) {
      GroupCodec.LineReadsBack(g);
    }
  }

  /**
   From the files of a first boot, every run of commands that adds names a line can hold keeps
   what the files read as in order: names, uids and gids unique, uid 0 there, no group on an
   account's gid but one of its name; and root stays.
   */
  lemma EveryRunKeepsFiles(c: Codec, secret: Secret, events: seq<Event>)
    requires c == ESPIX && ProperSecret(secret) && forall i :: 0 <= i < |events| ==> PlainEvent(events[i])
    ensures var s := Read(c, RunText(c, Written(c, Seeded(secret)), events));
            Inv(s) && HasAccount(s, "root", UID_ROOT, "/")
  {
    assert Carrier(c) by { EspixCarries(); }
    var s := Seeded(secret);
    SeededIsCarried(secret);
    assert Inv(s) by { EveryRunKeepsInv(secret, []); }
    RunTextRefines(c, s, events);
    EveryRunKeepsInv(secret, events);
    RootStays(s, events, s.accounts[1]);
  }

  // ----- Names the format does not carry -----

  /** The account a successful useradd makes. */
  function NewRecord(s: State, name: string, system: bool): Record
    requires NextFree(s, First(system), Last(system)).Some?
  {
    var uid := NextFree(s, First(system), Last(system)).value;
    Locked(name, HomeOf(name, system), uid, uid)
  }

  lemma AddUserWrites(c: Codec, s: State, name: string, system: bool, io: Io)
    requires Held(c, s) && AddUser(s, name, system, io).1 == Fine
    ensures NextFree(s, First(system), Last(system)).Some? && |s.accounts| < MAX_ACCOUNTS
    ensures AddUserText(c, Written(c, s), name, system, io).0.passwd == Stored(c.line, s.accounts + [NewRecord(s, name, system)])
    ensures AddUser(s, name, system, io).0.accounts == s.accounts + [NewRecord(s, name, system)]
  {
    AddUserRefines(c, s, name, system, io);
  }

  lemma AllWellFormed(s: State)
    requires CarriedState(s)
    ensures forall i :: 0 <= i < |s.accounts| ==> PasswdCodec.WellFormed(s.accounts[i])
  {
    forall i | 0 <= i < |s.accounts| ensures PasswdCodec.WellFormed(s.accounts[i]) {
      assert CarriedAccount(s.accounts[i]);
    }
  }

  lemma AddUserReads(c: Codec, s: State, name: string, system: bool, io: Io)
    requires Held(c, s) && AddUser(s, name, system, io).1 == Fine
    ensures NextFree(s, First(system), Last(system)).Some? && |s.accounts| < MAX_ACCOUNTS
    ensures AccountsIn(c, AddUserText(c, Written(c, s), name, system, io).0)
         == Loaded(c.account, Stored(c.line, s.accounts + [NewRecord(s, name, system)]), MAX_ACCOUNTS)
    ensures AddUser(s, name, system, io).0.accounts == s.accounts + [NewRecord(s, name, system)]
  {
    AddUserWrites(c, s, name, system, io);
  }

  lemma NewRecordReadsBack(s: State, name: string, system: bool)
    requires CarriedState(s) && |s.accounts| < MAX_ACCOUNTS && !BadName(name) && NextFree(s, First(system), Last(system)).Some?
    ensures var accounts := s.accounts + [NewRecord(s, name, system)];
            Loaded(ParseLine, Stored(Format, accounts), MAX_ACCOUNTS) == accounts <==> Carried(name) && (system || '\r' !in name)
  {
    CrInHome(name, system);
    AllWellFormed(s);
    NewAccountReadsBack(s.accounts, NewRecord(s, name, system));
  }

  /** Of a successful useradd the new account is what is read from the file exactly when its name, and its home, can be carried. */
  lemma AddUserReadsBack(c: Codec, s: State, name: string, system: bool, io: Io)
    requires c == ESPIX && CarriedState(s) && Sized(s) && AddUser(s, name, system, io).1 == Fine
    ensures AccountsIn(c, AddUserText(c, Written(c, s), name, system, io).0) == AddUser(s, name, system, io).0.accounts
       <==> Carried(name) && (system || '\r' !in name)
  {
    assert Carrier(c) by { EspixCarries(); }
    AddUserReads(c, s, name, system, io);
    NewRecordReadsBack(s, name, system);
  }

  lemma CrInHome(name: string, system: bool)
    ensures '\r' in HomeOf(name, system) <==> !system && '\r' in name
  {
    var home := HomeOf(name, system);
    if !system && '\r' in name {
      var k :| 0 <= k < |name| && name[k] == '\r';
      assert home[6 + k] == '\r';
    }
  }

  /** What is read after a useradd whose line parses as another account. */
  lemma AddUserReadsAs(c: Codec, s: State, name: string, system: bool, io: Io, body: string, other: Record)
    requires Held(c, s) && AddUser(s, name, system, io).1 == Fine && NextFree(s, First(system), Last(system)).Some?
    requires c.line(NewRecord(s, name, system)) == body + ['\n'] && c.account(c.line(NewRecord(s, name, system))) == Some(other)
    requires body != [] && Free(body, {'\n'}) && |body| + 1 < LINE_MAX_LEN && !Skipped(body)
    ensures AccountsIn(c, AddUserText(c, Written(c, s), name, system, io).0) == s.accounts + [other]
  {
    AddUserWrites(c, s, name, system, io);
    AccountsReadable(c, s.accounts);
    LastLineReadsAs(c.account, c.line, s.accounts, NewRecord(s, name, system), body, other, MAX_ACCOUNTS);
  }

  const COLON_NAME := "x:!:0:0:/"

  lemma ColonNameIsNew(secret: Secret)
    ensures AddUser(Seeded(secret), COLON_NAME, false, Io(true, true, true)).1 == Fine
    ensures NextFree(Seeded(secret), First(false), Last(false)).Some?
  {
    var s := Seeded(secret);
    IdIsAlwaysFree(s, false);
    assert IndexOf(s.accounts, COLON_NAME) == 2 by {
      assert s.accounts[0].name[0] == 'e' && s.accounts[1].name[0] == 'r' && COLON_NAME[0] == 'x';
    }
  }

  lemma ColonNameParses(rec: Record)
    requires rec.name == COLON_NAME
    ensures ParseLine(Format(rec)) == Some(Locked("x", "/", UID_ROOT, UID_ROOT))
  {
    assert Decimal(0) == "0";
    assert rec.name == "x" + [':'] + ("!" + [':'] + (Decimal(0) + [':'] + (Decimal(0) + [':'] + "/")));
    ColonName(rec, "x", 0, 0, "/");
  }

  /**
   A name with colons that useradd accepts: what is read from the file afterwards is another
   name with the ids it spells, here those of root, so uids are no longer unique.
   */
  lemma ColonNameBreaks(c: Codec, secret: Secret)
    requires c == ESPIX && ProperSecret(secret)
    ensures var f := StepText(c, Written(c, Seeded(secret)), UserAdd(COLON_NAME, false, Io(true, true, true))).0;
            && AccountsIn(c, f) == Seeded(secret).accounts + [Locked("x", "/", UID_ROOT, UID_ROOT)]
            && !Inv(Read(c, f))
  {
    var s := Seeded(secret);
    assert Carrier(c) by { EspixCarries(); }
    SeededIsCarried(secret);
    ColonNameIsNew(secret);
    var rec := NewRecord(s, COLON_NAME, false);
    ColonNameParses(rec);
    ColonLine(rec);
    AddUserReadsAs(c, s, COLON_NAME, false, Io(true, true, true), PasswdCodec.Body(rec), Locked("x", "/", UID_ROOT, UID_ROOT));
    TwoRoots(s.accounts + [Locked("x", "/", UID_ROOT, UID_ROOT)]);
  }

  lemma TwoRoots(accounts: seq<Record>)
    requires |accounts| == 3 && accounts[1].uid == accounts[2].uid
    ensures !Distinct(accounts, UidOf)
  {
    assert UidOf(accounts[1]) == UidOf(accounts[2]);
  }

  lemma ColonLine(rec: Record)
    requires rec.name == COLON_NAME && rec == Locked(rec.name, "/home/" + rec.name, rec.uid, rec.uid) && rec.uid <= UINT16_MAX
    ensures var body := PasswdCodec.Body(rec);
            body != [] && Free(body, {'\n'}) && |body| + 1 < LINE_MAX_LEN && !Skipped(body)
  {
    var u := Decimal(rec.uid);
    assert |u| <= 5 by {
      assert Pow10(5) == 100000;
      DecimalLength(rec.uid, 5);
    }
    DecimalIsFree(rec.uid, {'\n'});
    assert PasswdCodec.Body(rec)[0] == 'x';
  }
}
