/**
 Setting a password and checking one: the account files and the key derivation together. A
 password set is the password accepted, and no other that derives differently.
 */
module Login {
  import opened Collections
  import opened PasswdCodec
  import opened Groups
  import opened Accounts
  import opened AccountEffects
  import opened AccountTexts
  import opened AuthFiles
  import Pbkdf2

  // ----- Bytes of the hash functions and numbers of the files -----

  function BytesOf(s: seq<Byte>): (r: Pbkdf2.Bytes)
    ensures |r| == |s|
  {
    seq(|s|, i requires 0 <= i < |s| => Pbkdf2.Byte(s[i]))
  }

  function NumbersOf(b: Pbkdf2.Bytes): (r: seq<Byte>)
    ensures |r| == |b|
  {
    seq(|b|, i requires 0 <= i < |b| => b[i] as int)
  }

  lemma SameNumber(x: bv8, y: bv8)
    requires x as int == y as int
    ensures x == y
  {
  }

  lemma BytesReadBack(b: Pbkdf2.Bytes)
    ensures BytesOf(NumbersOf(b)) == b
  {
    forall i | 0 <= i < |b| ensures Pbkdf2.Byte(b[i] as int) == b[i] {
      Pbkdf2.ByteIsNumber(b[i] as int);
      SameNumber(Pbkdf2.Byte(b[i] as int), b[i]);
    }
  }

  // ----- Checking -----

  /** A password opens an account that is there and not locked, and whose hash is what the password derives to. */
  ghost predicate Accepts(sha: Pbkdf2.Sha, rec: Option<Record>, password: Pbkdf2.Bytes) {
    && rec.Some? && !rec.value.locked && rec.value.iters > 0 && |rec.value.salt| + 4 <= Pbkdf2.SHA_BLOCK - 9
    && BytesOf(rec.value.hash) == Pbkdf2.T1(Pbkdf2.HmacPrf(sha, password), BytesOf(rec.value.salt), rec.value.iters)
  }

  /** The check at login, on what the file holds at that moment. */
  method Verify(auth: Auth, engine: Pbkdf2.ShaEngine, name: string, password: Pbkdf2.Bytes) returns (ok: bool)
    requires !engine.held
    modifies engine
    ensures !engine.held
    ensures ok <==> Accepts(engine.sha, Lookup(auth.codec, auth.Contents(), name), password)
  {
    var rec := auth.Find(name);
    if rec == None || |rec.value.hash| != HASH_LEN {
      return false;
    }
    var a := rec.value;
    ok := Pbkdf2.Verify(engine, Pbkdf2.Account(a.locked, a.iters, BytesOf(a.salt), BytesOf(a.hash)), password);
  }

  // ----- Setting -----

  /** The salt and hash stored for a password; `salt` is what the random generator gave. */
  method SetHash(engine: Pbkdf2.ShaEngine, password: Pbkdf2.Bytes, salt: Option<seq<Byte>>) returns (p: Option<Secret>)
    requires !engine.held && (salt.Some? ==> |salt.value| == SALT_LEN)
    modifies engine
    ensures !engine.held && (p.Some? <==> salt.Some?)
    ensures p.Some? ==> p.value.salt == salt.value && ProperSecret(p.value)
    ensures p.Some? ==> Derives(engine.sha, p.value, password)
  {
    if salt == None {
      return None;
    }
    var r := Pbkdf2.Pbkdf2Sha256(engine, password, BytesOf(salt.value), PBKDF2_ITERS, HASH_LEN);
    p := Some(Secret(salt.value, NumbersOf(r.hash)));
    BytesReadBack(r.hash);
  }

  /** The password derives to the hash, under the salt, in the 20000 iterations of every hash espix makes. */
  ghost predicate Derives(sha: Pbkdf2.Sha, p: Secret, password: Pbkdf2.Bytes) {
    BytesOf(p.hash) == Pbkdf2.T1(Pbkdf2.HmacPrf(sha, password), BytesOf(p.salt), 20000)
  }

  // ----- What is found in the files afterwards -----

  /** The record with the new secret in it: unlocked, and otherwise the same. */
  function SecretSet(a: Record, p: Secret): (b: Record)
    ensures b.salt == p.salt && b.hash == p.hash && b.iters == 20000 && !b.locked
    ensures b.name == a.name && b.uid == a.uid && b.gid == a.gid && b.home == a.home
  {
    Record(a.name, 20000, p.salt, p.hash, a.home, a.uid, a.gid, false)
  }

  /** After a change that succeeded the files hold that account with the new secret, and every other as it was. */
  lemma ChangeIsFound(c: Codec, s: State, name: string, empty: bool, p: Secret, io: Io, i: nat, u: string)
    requires Held(c, s) && ProperSecret(p) && IsFirst(s.accounts, name, i)
    requires ChangePasswordText(c, Written(c, s), name, empty, Some(p), io.accounts).1 == Fine
    ensures var f := ChangePasswordText(c, Written(c, s), name, empty, Some(p), io.accounts).0;
            && Lookup(c, f, name) == Some(SecretSet(s.accounts[i], p))
            && (u != name ==> Lookup(c, f, u) == Lookup(c, Written(c, s), u))
  {
    ChangePasswordRefines(c, s, name, empty, Some(p), io);
    var t := ChangePassword(s, name, empty, Some(p), io).0;
    ChangePasswordCarried(s, name, empty, Some(p), io);
    PasswordChanged(s, name, empty, p, io, i);
    FirstIs(t.accounts, name, i);
    LookupWritten(c, t, name);
    if u != name {
      SameElsewhere(c, s, t, i, u);
    }
  }

  lemma SameElsewhere(c: Codec, s: State, t: State, i: nat, u: string)
    requires Carrier(c) && CarriedState(s) && CarriedState(t) && i < |s.accounts| && OnlyChanges(s, t, i) && s.accounts[i].name != u
    ensures Lookup(c, Written(c, t), u) == Lookup(c, Written(c, s), u)
  {
    LookupWritten(c, s, u);
    LookupWritten(c, t, u);
    IndexOfIs(t.accounts, u, IndexOf(s.accounts, u));
  }

  /** Locking an account leaves one in the files that no password opens. */
  lemma LockIsFound(c: Codec, s: State, name: string, io: Io, i: nat, sha: Pbkdf2.Sha, password: Pbkdf2.Bytes)
    requires Held(c, s) && IsFirst(s.accounts, name, i) && LockUserText(c, Written(c, s), name, io.accounts).1 == Fine
    ensures !Accepts(sha, Lookup(c, LockUserText(c, Written(c, s), name, io.accounts).0, name), password)
  {
    LockUserRefines(c, s, name, io);
    var t := LockUser(s, name, io).0;
    LockUserCarried(s, name, io);
    AccountLocked(s, name, io, i);
    FirstIs(t.accounts, name, i);
    LookupWritten(c, t, name);
  }

  /** Nor does any open the account a useradd has just made. */
  lemma NewAccountIsShut(c: Codec, s: State, name: string, system: bool, io: Io, sha: Pbkdf2.Sha, password: Pbkdf2.Bytes)
    requires Held(c, s) && PlainName(name) && AddUserText(c, Written(c, s), name, system, io).1 == Fine
    ensures !Accepts(sha, Lookup(c, AddUserText(c, Written(c, s), name, system, io).0, name), password)
  {
    AddUserRefines(c, s, name, system, io);
    var t := AddUser(s, name, system, io).0;
    AddUserCarried(s, name, system, io);
    var a := AddUserDoes(s, name, system, io);
    IndexOfIs(t.accounts, name, |s.accounts|);
    LookupWritten(c, t, name);
  }

  /**
   passwd and then a login, as they run: when the change reports success exactly the passwords
   that derive to the stored hash are accepted, the one just set among them.
   */
  method ChangeAndLogin(auth: Auth, engine: Pbkdf2.ShaEngine, name: string, password: Pbkdf2.Bytes, salt: Option<seq<Byte>>,
                        io: bool, attempt: Pbkdf2.Bytes, ghost s: State, ghost i: nat)
    returns (err: Error, ok: bool, ghost p: Option<Secret>)
    requires auth.Valid() && !engine.held && (salt.Some? ==> |salt.value| == SALT_LEN)
    requires Held(auth.codec, s) && auth.Contents() == Written(auth.codec, s) && IsFirst(s.accounts, name, i)
    modifies auth, engine
    ensures err == Fine ==> p.Some? && Derives(engine.sha, p.value, password)
    ensures err == Fine ==> (ok <==> Derives(engine.sha, p.value, attempt))
    ensures err != Fine ==> auth.Contents() == old(auth.Contents())
  {
    var secret := SetHash(engine, password, salt);
    p := secret;
    ghost var c, f := auth.codec, auth.Contents();
    err := auth.SetPassword(name, password == [], secret, io);
    ok := Verify(auth, engine, name, attempt);
    if err == Fine {
      ChangeIsFound(c, s, name, password == [], p.value, Io(io, io, io), i, name);
    }
  }
}
