/**
 The account file: how a record is printed, how a line is taken apart again, and that
 writing a list of records and reading it back yields the list.
 */
module PasswdCodec {
  import opened LibC
  import opened Collections
  import opened LineFile

  type Byte = x: int | 0 <= x < 256

  const USER_MAX := 17
  const HOME_MAX := 64
  const SALT_LEN := 16
  const HASH_LEN := 32
  const MAX_ACCOUNTS := 8
  const UINT16_MAX := 65535
  const ALGO_TAG := "$pbkdf2-sha256$"
  const LOCKED_TAG := "!"

  datatype Record = Record(name: string, iters: nat, salt: seq<Byte>, hash: seq<Byte>, home: string,
                           uid: nat, gid: nat, locked: bool)

  function Zeros(n: nat): seq<Byte> {
    seq(n, _ => 0)
  }

  // ----- Hex -----

  function HexOf(bytes: seq<Byte>): (s: string)
    ensures |s| == 2 * |bytes|
  {
    if bytes == [] then [] else [DigitChar(bytes[0] / 16), DigitChar(bytes[0] % 16)] + HexOf(bytes[1..])
  }

  /**
   The byte two characters make. A space or a sign in front of one hex digit is let through,
   as strtoul lets it.
   */
  function PairValue(a: char, b: char): Option<Byte> {
    if DigitValue(b) >= 16 then None
    else if DigitValue(a) < 16 then Some(16 * DigitValue(a) + DigitValue(b))
    else if IsSpace(a) || a == '+' then Some(DigitValue(b))
    else if a == '-' then Some(if DigitValue(b) == 0 then 0 else 256 - DigitValue(b))
    else None
  }

  lemma OneDigit(b: char)
    ensures Magnitude([b], Sixteen) == if DigitValue(b) < 16 then (DigitValue(b), 1) else (0, 0)
  {
    assert [b][1..] == [] && [b][..0] == [] && [b][..1] == [b];
    assert NumberValue([b][..1], Sixteen) == 16 * NumberValue([], Sixteen) + DigitValue(b);
  }

  lemma TwoDigits(a: char, b: char)
    requires DigitValue(a) < 16
    ensures Magnitude([a, b], Sixteen) == if DigitValue(b) < 16 then (16 * DigitValue(a) + DigitValue(b), 2) else (DigitValue(a), 1)
  {
    OneDigit(a);
    OneDigit(b);
    assert [a, b][1..] == [b] && [a, b][..1] == [a] && [a, b][..2] == [a, b] && [a][..1] == [a];
  }

  lemma OneUnsigned(b: char)
    ensures Unsigned([b], Sixteen) == if DigitValue(b) < 16 then (DigitValue(b), 1) else (0, 0)
  {
    OneDigit(b);
    assert [b][0..] == [b];
  }

  lemma TwoUnsigned(a: char, b: char)
    ensures var (v, n) := Unsigned([a, b], Sixteen);
            if DigitValue(a) < 16 && DigitValue(b) < 16 then (v, n) == (16 * DigitValue(a) + DigitValue(b), 2)
            else n < 2 && (DigitValue(a) >= 16 ==> n == 0)
  {
    var s := [a, b];
    assert s[0..] == s && s[2..] == [];
    assert Magnitude([], Sixteen) == (0, 0);
    if DigitValue(a) < 16 {
      TwoDigits(a, b);
    } else {
      assert Magnitude(s, Sixteen).1 == 0;
    }
  }

  lemma OneWithSign(b: char)
    ensures WithSign([b], Sixteen) == if DigitValue(b) < 16 then (DigitValue(b), 1) else (0, 0)
  {
    OneUnsigned(b);
    assert [b][0..] == [b] && [b][1..] == [];
    assert Magnitude([], Sixteen) == (0, 0) && Unsigned([], Sixteen) == (0, 0);
  }

  lemma TwoWithSign(a: char, b: char)
    ensures var (v, n) := WithSign([a, b], Sixteen);
            if DigitValue(b) < 16 && DigitValue(a) < 16 then (v, n) == (16 * DigitValue(a) + DigitValue(b), 2)
            else if DigitValue(b) < 16 && (a == '+' || a == '-') then (v, n) == (Wrap(DigitValue(b), a == '-'), 2)
            else n < 2 && (DigitValue(a) >= 16 ==> n == 0)
  {
    var s := [a, b];
    assert s[0..] == s && s[1..] == [b];
    TwoUnsigned(a, b);
    OneUnsigned(b);
  }

  lemma WrapLow(v: nat)
    requires v < 16
    ensures Wrap(v, true) % 256 == if v == 0 then 0 else 256 - v
  {
    assert ULONG_MAX + 1 == 16777216 * 256;
    if v > 0 {
      assert ULONG_MAX + 1 - v == 16777215 * 256 + (256 - v);
    }
  }

  lemma NothingWithSign()
    ensures WithSign([], Sixteen) == (0, 0)
  {
    var s: string := [];
    assert s[0..] == s;
    assert Magnitude(s, Sixteen) == (0, 0);
  }

  lemma AfterBlank(a: char, b: char)
    requires IsSpace(a)
    ensures Strtoul([a, b], Sixteen) == if DigitValue(b) < 16 then (DigitValue(b), 2) else (0, 0)
  {
    var s := [a, b];
    assert s[1..] == [b] && [b][1..] == [] && s[2..] == [];
    if IsSpace(b) {
      assert SpaceSpan(s) == 2;
      NothingWithSign();
    } else {
      assert SpaceSpan(s) == 1;
      OneWithSign(b);
    }
  }

  lemma NoBlank(a: char, b: char)
    requires !IsSpace(a)
    ensures var (v, n) := Strtoul([a, b], Sixteen);
            if DigitValue(b) < 16 && DigitValue(a) < 16 then (v, n) == (16 * DigitValue(a) + DigitValue(b), 2)
            else if DigitValue(b) < 16 && (a == '+' || a == '-') then (v, n) == (Wrap(DigitValue(b), a == '-'), 2)
            else n < 2
  {
    var s := [a, b];
    assert s[0..] == s && SpaceSpan(s) == 0;
    TwoWithSign(a, b);
  }

  lemma LowByte(v: nat)
    requires v < 256
    ensures v % 256 == v
  {
  }

  lemma ByteOf(a: char, b: char, v: nat)
    requires DigitValue(b) < 16
    requires if DigitValue(a) < 16 then v == 16 * DigitValue(a) + DigitValue(b)
             else if a == '-' then v == Wrap(DigitValue(b), true)
             else (IsSpace(a) || a == '+') && v == DigitValue(b)
    ensures PairValue(a, b) == Some(v % 256)
  {
    if DigitValue(a) < 16 || a != '-' {
      LowByte(v);
    } else {
      WrapLow(DigitValue(b));
    }
  }

  /** What strtoul makes of two characters, when it takes both. */
  lemma PairIsStrtoul(a: char, b: char, v: nat, n: nat)
    requires (v, n) == Strtoul([a, b], Sixteen)
    ensures PairValue(a, b) == if n == 2 then Some(v % 256) else None
  {
    if IsSpace(a) {
      AfterBlank(a, b);
    } else {
      NoBlank(a, b);
    }
    if n == 2 {
      ByteOf(a, b, v);
    }
  }

  function UnHex(s: string, n: nat): Option<seq<Byte>>
    decreases |s|
  {
    if n == 0 then Some([])
    else if |s| < 2 then None
    else match (PairValue(s[0], s[1]), UnHex(s[2..], n - 1))
      case (Some(b), Some(rest)) => Some([b] + rest)
      case _ => None
  }

  lemma {:induction false} HexAppend(a: seq<Byte>, b: seq<Byte>)
    ensures HexOf(a + b) == HexOf(a) + HexOf(b)
  {
    if a == [] {
      assert a + b == b;
    } else {
      HexAppend(a[1..], b);
      assert (a + b)[0] == a[0] && (a + b)[1..] == a[1..] + b;
      Associates([DigitChar(a[0] / 16), DigitChar(a[0] % 16)], HexOf(a[1..]), HexOf(b));
    }
  }

  method ToHex(bytes: seq<Byte>) returns (s: string)
    ensures s == HexOf(bytes)
  {
    s := [];
    for i := 0 to |bytes|
      invariant s == HexOf(bytes[..i])
    {
      HexAppend(bytes[..i], [bytes[i]]);
      assert bytes[..i + 1] == bytes[..i] + [bytes[i]];
      assert HexOf([bytes[i]]) == [DigitChar(bytes[i] / 16), DigitChar(bytes[i] % 16)] + HexOf([bytes[i]][1..]);
      s := s + [DigitChar(bytes[i] / 16), DigitChar(bytes[i] % 16)];
    }
    assert bytes[..|bytes|] == bytes;
  }

  /** What was read so far, completed by what is left to read. */
  ghost function Completed(done: seq<Byte>, rest: Option<seq<Byte>>): Option<seq<Byte>> {
    match rest
    case None => None
    case Some(more) => Some(done + more)
  }

  method ReadByte(a: char, b: char) returns (r: Option<Byte>)
    ensures r == PairValue(a, b)
  {
    var (v, took) := Strtoul([a, b], Sixteen);
    PairIsStrtoul(a, b, v, took);
    r := if took == 2 then Some(v % 256) else None;
  }

  method FromHex(s: string, n: nat) returns (r: Option<seq<Byte>>)
    ensures r == UnHex(s, n)
  {
    var out: seq<Byte> := [];
    ghost var all := UnHex(s, n);
    assert s[0..] == s && (all.Some? ==> out + all.value == all.value);
    for i := 0 to n
      invariant 2 * i <= |s| && |out| == i
      invariant Completed(out, UnHex(s[2 * i..], n - i)) == all
    {
      var rest := s[2 * i..];
      if 2 * i + 1 >= |s| {
        return None;
      }
      assert rest[0] == s[2 * i] && rest[1] == s[2 * i + 1] && rest[2..] == s[2 * (i + 1)..];
      var b := ReadByte(s[2 * i], s[2 * i + 1]);
      if b == None {
        return None;
      }
      CompletedStep(out, b.value, UnHex(rest[2..], n - i - 1));
      out := out + [b.value];
    }
    assert out + [] == out;
    r := Some(out);
  }

  lemma CompletedStep(done: seq<Byte>, b: Byte, rest: Option<seq<Byte>>)
    ensures Completed(done, if rest.Some? then Some([b] + rest.value) else None) == Completed(done + [b], rest)
  {
    if rest.Some? {
      assert done + ([b] + rest.value) == (done + [b]) + rest.value;
    }
  }

  lemma PairReadsBack(b: Byte)
    ensures PairValue(DigitChar(b / 16), DigitChar(b % 16)) == Some(b)
  {
    DigitReadsBack(b / 16);
    DigitReadsBack(b % 16);
  }

  lemma UnHexStep(x: char, y: char, rest: string, b: Byte, bytes: seq<Byte>)
    requires PairValue(x, y) == Some(b) && UnHex(rest, |bytes|) == Some(bytes)
    ensures UnHex([x, y] + rest, 1 + |bytes|) == Some([b] + bytes)
  {
    assert ([x, y] + rest)[2..] == rest;
  }

  lemma {:induction false} HexReadsBack(bytes: seq<Byte>)
    ensures UnHex(HexOf(bytes), |bytes|) == Some(bytes)
  {
    if bytes != [] {
      HexReadsBack(bytes[1..]);
      PairReadsBack(bytes[0]);
      UnHexStep(DigitChar(bytes[0] / 16), DigitChar(bytes[0] % 16), HexOf(bytes[1..]), bytes[0], bytes[1..]);
      assert [bytes[0]] + bytes[1..] == bytes;
    }
  }

  // ----- One line -----

  /** Numeric and within 16 bits; strtoul also lets white space and a sign through. */
  function ParseId(s: Option<string>): Option<nat> {
    if s == None || s.value == [] then None
    else
      var (v, n) := Strtoul(s.value, Ten);
      if n == |s.value| && v <= UINT16_MAX then Some(v) else None
  }

  /** strlcpy into a buffer of `size`: the longest prefix it holds with its end mark. */
  function Copied(s: string, size: nat): (r: string)
    requires size > 0
    ensures r <= s && |r| < size && (r == s || |r| + 1 == size)
  {
    if |s| >= size then s[..size - 1] else s
  }

  /** The password field of a record. */
  datatype Hash = Hash(locked: bool, iters: nat, salt: seq<Byte>, hash: seq<Byte>)

  function Tokens3(s: string): seq<Option<string>> {
    var (a, s1) := Strtok(s, {'$'});
    var (b, s2) := Strtok(s1, {'$'});
    var (c, s3) := Strtok(s2, {'$'});
    [a, b, c]
  }

  function HashOf(iters: nat, salt: Option<seq<Byte>>, hash: Option<seq<Byte>>): Option<Hash> {
    if iters == 0 || salt == None || hash == None then None else Some(Hash(false, iters, salt.value, hash.value))
  }

  /** The password field, given how its number and its hex strings are read. */
  function HashWith(number: string -> nat, unhex: (string, nat) -> Option<seq<Byte>>, field: string): Option<Hash> {
    if field == LOCKED_TAG then Some(Hash(true, 0, Zeros(SALT_LEN), Zeros(HASH_LEN)))
    else if !(|ALGO_TAG| <= |field| && field[..|ALGO_TAG|] == ALGO_TAG) then None
    else
      var t := Tokens3(field[|ALGO_TAG|..]);
      if t[0] == None || t[1] == None || t[2] == None then None
      else HashOf(number(t[0].value), unhex(t[1].value, SALT_LEN), unhex(t[2].value, HASH_LEN))
  }

  function Number(s: string): nat {
    Strtoul(s, Ten).0
  }

  function ParseHash(field: string): Option<Hash> {
    HashWith(Number, UnHex, field)
  }

  /** The five colon-separated fields of a line. */
  function Fields(line: string): seq<Option<string>> {
    var (name, l1) := Strtok(line, {':'});
    var (hash, l2) := Strtok(l1, {':'});
    var (uid, l3) := Strtok(l2, {':', '\r', '\n'});
    var (gid, l4) := Strtok(l3, {':', '\r', '\n'});
    var (home, l5) := Strtok(l4, {':', '\r', '\n'});
    [name, hash, uid, gid, home]
  }

  /** A record from its fields, given how an id and a password field are read. */
  function Assemble(id: Option<string> -> Option<nat>, hash: string -> Option<Hash>, f: seq<Option<string>>): Option<Record>
    requires |f| == 5
  {
    if f[0] == None || f[1] == None then None
    else match (id(f[2]), id(f[3]), hash(f[1].value))
      case (Some(uid), Some(gid), Some(h)) =>
        Some(Record(Copied(f[0].value, USER_MAX), h.iters, h.salt, h.hash,
                    Copied(if f[4] == None then "/" else f[4].value, HOME_MAX), uid, gid, h.locked))
      case _ => None
  }

  function ParseLine(line: string): Option<Record> {
    Assemble(ParseId, ParseHash, Fields(line))
  }

  function HashField(rec: Record): string {
    if rec.locked then LOCKED_TAG
    else ALGO_TAG + (Decimal(rec.iters) + ['$'] + (HexOf(rec.salt) + ['$'] + HexOf(rec.hash)))
  }

  /** A record's line without its newline. */
  function Body(rec: Record): string {
    rec.name + [':'] + (HashField(rec) + [':'] + (Decimal(rec.uid) + [':'] + (Decimal(rec.gid) + [':'] + rec.home)))
  }

  function Format(rec: Record): string {
    Body(rec) + ['\n']
  }

  lemma DecimalMore(n: nat, d: nat, text: string)
    requires n > 0 && d < 10 && Decimal(n) == text
    ensures Decimal(10 * n + d) == text + [DigitChar(d)]
  {
  }

  lemma SomeDecimals()
    ensures Decimal(27) == "27" && Decimal(1000) == "1000" && Decimal(20000) == "20000"
  {
    DecimalMore(2, 7, "2");
    DecimalMore(1, 0, "1");
    DecimalMore(10, 0, "10");
    DecimalMore(100, 0, "100");
    DecimalMore(2, 0, "2");
    DecimalMore(20, 0, "20");
    DecimalMore(200, 0, "200");
    DecimalMore(2000, 0, "2000");
  }

  /** The layout of a line, on a locked account whose ids differ. */
  lemma LockedLine(rec: Record)
    requires rec == Record("bob", 0, [], [], "/home/bob", 1000, 27, true)
    ensures Format(rec) == "bob:!:1000:27:/home/bob\n"
  {
    SomeDecimals();
  }

  lemma SomeHex()
    ensures HexOf([0xab]) == "ab" && HexOf([0x01, 0xf0]) == "01f0"
  {
    assert [0x01, 0xf0][1..] == [0xf0] && [0xf0][1..] == [];
    assert HexOf([0xf0]) == "f0";
  }

  /** The layout of a password field, on a salt of one byte and a hash of two. */
  lemma PasswordField(rec: Record)
    requires !rec.locked && rec.iters == 20000 && rec.salt == [0xab] && rec.hash == [0x01, 0xf0]
    ensures HashField(rec) == "$pbkdf2-sha256$20000$ab$01f0"
  {
    SomeDecimals();
    SomeHex();
    assert "20000" + ['$'] + ("ab" + ['$'] + "01f0") == "20000$ab$01f0";
  }

  /** A name a line of the file can carry. */
  ghost predicate Carried(name: string) {
    name != [] && Free(name, {':', '\n'}) && name[0] != '#' && name[0] != '\r'
  }

  /** A record that is what useradd, passwd and the seeding make. */
  ghost predicate WellFormed(rec: Record) {
    && |rec.name| < USER_MAX && Carried(rec.name)
    && 1 <= |rec.home| < HOME_MAX && Free(rec.home, {':', '\r', '\n'})
    && rec.uid <= UINT16_MAX && rec.gid <= UINT16_MAX
    && (if rec.locked then rec.iters == 0 && rec.salt == Zeros(SALT_LEN) && rec.hash == Zeros(HASH_LEN)
        else 1 <= rec.iters <= ULONG_MAX && |rec.salt| == SALT_LEN && |rec.hash| == HASH_LEN)
  }

  // ----- A printed record reads back -----

  const SEPARATORS: set<char> := {':', '$', '\r', '\n'}

  lemma DigitsAreFree(s: string, base: Base)
    requires Digits(s, base)
    ensures Free(s, SEPARATORS)
  {
  }

  lemma {:induction false} HexIsDigits(bytes: seq<Byte>)
    ensures Digits(HexOf(bytes), Sixteen)
  {
    if bytes != [] {
      HexIsDigits(bytes[1..]);
      DigitReadsBack(bytes[0] / 16);
      DigitReadsBack(bytes[0] % 16);
    }
  }

  lemma FreeOf(s: string, all: set<char>, some: set<char>)
    requires Free(s, all) && some <= all
    ensures Free(s, some)
  {
  }

  lemma FreeAppend(a: string, b: string, delims: set<char>)
    requires Free(a, delims) && Free(b, delims)
    ensures Free(a + b, delims)
  {
  }

  lemma DecimalIsFree(n: nat, delims: set<char>)
    requires delims <= SEPARATORS
    ensures Free(Decimal(n), delims)
  {
    DecimalReadsBack(n);
    DigitsAreFree(Decimal(n), Ten);
    FreeOf(Decimal(n), SEPARATORS, delims);
  }

  lemma HexIsFree(bytes: seq<Byte>, delims: set<char>)
    requires delims <= SEPARATORS
    ensures Free(HexOf(bytes), delims)
  {
    HexIsDigits(bytes);
    DigitsAreFree(HexOf(bytes), Sixteen);
    FreeOf(HexOf(bytes), SEPARATORS, delims);
  }

  lemma HashFieldIsFree(rec: Record)
    ensures HashField(rec) != [] && Free(HashField(rec), {':', '\r', '\n'})
  {
    if !rec.locked {
      var delims := {':', '\r', '\n'};
      DecimalIsFree(rec.iters, delims);
      HexIsFree(rec.salt, delims);
      HexIsFree(rec.hash, delims);
      var tail := HexOf(rec.salt) + ['$'] + HexOf(rec.hash);
      assert Free(ALGO_TAG, delims) && Free(['$'], delims);
      FreeAppend(HexOf(rec.salt), ['$'], delims);
      FreeAppend(HexOf(rec.salt) + ['$'], HexOf(rec.hash), delims);
      FreeAppend(Decimal(rec.iters), ['$'], delims);
      FreeAppend(Decimal(rec.iters) + ['$'], tail, delims);
      FreeAppend(ALGO_TAG, Decimal(rec.iters) + ['$'] + tail, delims);
    }
  }

  lemma Tokens3ReadBack(a: string, b: string, c: string)
    requires a != [] && b != [] && c != [] && Free(a, {'$'}) && Free(b, {'$'}) && Free(c, {'$'})
    ensures Tokens3(a + ['$'] + (b + ['$'] + c)) == [Some(a), Some(b), Some(c)]
  {
    StrtokField(a, '$', b + ['$'] + c, {'$'});
    StrtokField(b, '$', c, {'$'});
    StrtokLast(c, {'$'});
  }

  lemma HashFieldTokens(rec: Record)
    requires WellFormed(rec) && !rec.locked
    ensures var (f, n) := (HashField(rec), |ALGO_TAG|);
            && f != LOCKED_TAG && n <= |f| && f[..n] == ALGO_TAG
            && Tokens3(f[n..]) == [Some(Decimal(rec.iters)), Some(HexOf(rec.salt)), Some(HexOf(rec.hash))]
  {
    var (iters, salt, hash) := (Decimal(rec.iters), HexOf(rec.salt), HexOf(rec.hash));
    var field := HashField(rec);
    assert field[..|ALGO_TAG|] == ALGO_TAG && field[|ALGO_TAG|..] == iters + ['$'] + (salt + ['$'] + hash);
    assert field[0] == '$' && LOCKED_TAG[0] == '!';
    DecimalIsFree(rec.iters, {'$'});
    HexIsFree(rec.salt, {'$'});
    HexIsFree(rec.hash, {'$'});
    Tokens3ReadBack(iters, salt, hash);
  }

  lemma HashFieldWith(number: string -> nat, unhex: (string, nat) -> Option<seq<Byte>>, rec: Record)
    requires WellFormed(rec)
    requires !rec.locked ==> number(Decimal(rec.iters)) == rec.iters
    requires !rec.locked ==> unhex(HexOf(rec.salt), SALT_LEN) == Some(rec.salt)
    requires !rec.locked ==> unhex(HexOf(rec.hash), HASH_LEN) == Some(rec.hash)
    ensures HashWith(number, unhex, HashField(rec)) == Some(Hash(rec.locked, rec.iters, rec.salt, rec.hash))
  {
    if !rec.locked {
      HashFieldTokens(rec);
    }
  }

  lemma NumberReadsBack(n: nat)
    requires n <= ULONG_MAX
    ensures Number(Decimal(n)) == n
  {
    DecimalReadsBack(n);
    StrtoulPlain(Decimal(n), Ten);
  }

  lemma HashFieldReadsBack(rec: Record)
    requires WellFormed(rec)
    ensures ParseHash(HashField(rec)) == Some(Hash(rec.locked, rec.iters, rec.salt, rec.hash))
  {
    if !rec.locked {
      NumberReadsBack(rec.iters);
      HexReadsBack(rec.salt);
      HexReadsBack(rec.hash);
    }
    HashFieldWith(Number, UnHex, rec);
  }

  lemma FieldsReadBack(name: string, hash: string, uid: string, gid: string, home: string, end: char, rest: string)
    requires name != [] && Free(name, {':'})
    requires hash != [] && Free(hash, {':'})
    requires uid != [] && Free(uid, {':', '\r', '\n'})
    requires gid != [] && Free(gid, {':', '\r', '\n'})
    requires home != [] && Free(home, {':', '\r', '\n'}) && end in {':', '\r', '\n'}
    ensures Fields(name + [':'] + (hash + [':'] + (uid + [':'] + (gid + [':'] + (home + [end] + rest)))))
         == [Some(name), Some(hash), Some(uid), Some(gid), Some(home)]
  {
    StrtokField(home, end, rest, {':', '\r', '\n'});
    StrtokField(gid, ':', home + [end] + rest, {':', '\r', '\n'});
    StrtokField(uid, ':', gid + [':'] + (home + [end] + rest), {':', '\r', '\n'});
    StrtokField(hash, ':', uid + [':'] + (gid + [':'] + (home + [end] + rest)), {':'});
    StrtokField(name, ':', hash + [':'] + (uid + [':'] + (gid + [':'] + (home + [end] + rest))), {':'});
  }

  lemma Nested(a: string, b: string, c: string, d: string, e: string)
    ensures a + [':'] + (b + [':'] + (c + [':'] + (d + [':'] + e))) + ['\n']
         == a + [':'] + (b + [':'] + (c + [':'] + (d + [':'] + (e + ['\n'] + []))))
  {
  }

  lemma IdReadsBack(n: nat)
    requires n <= UINT16_MAX
    ensures ParseId(Some(Decimal(n))) == Some(n)
  {
    DecimalReadsBack(n);
    StrtoulPlain(Decimal(n), Ten);
  }

  function FieldsOf(rec: Record): seq<Option<string>> {
    [Some(rec.name), Some(HashField(rec)), Some(Decimal(rec.uid)), Some(Decimal(rec.gid)), Some(rec.home)]
  }

  lemma LineHasFields(rec: Record)
    requires WellFormed(rec)
    ensures Fields(Format(rec)) == FieldsOf(rec)
  {
    var (uid, gid) := (Decimal(rec.uid), Decimal(rec.gid));
    HashFieldIsFree(rec);
    DecimalIsFree(rec.uid, {':', '\r', '\n'});
    DecimalIsFree(rec.gid, {':', '\r', '\n'});
    FreeOf(rec.name, {':', '\n'}, {':'});
    FreeOf(HashField(rec), {':', '\r', '\n'}, {':'});
    FieldsReadBack(rec.name, HashField(rec), uid, gid, rec.home, '\n', []);
    Nested(rec.name, HashField(rec), uid, gid, rec.home);
  }

  lemma FieldsMakeRecord(id: Option<string> -> Option<nat>, hash: string -> Option<Hash>, rec: Record,
                         field: string, uid: string, gid: string)
    requires |rec.name| < USER_MAX && |rec.home| < HOME_MAX
    requires id(Some(uid)) == Some(rec.uid) && id(Some(gid)) == Some(rec.gid)
    requires hash(field) == Some(Hash(rec.locked, rec.iters, rec.salt, rec.hash))
    ensures Assemble(id, hash, [Some(rec.name), Some(field), Some(uid), Some(gid), Some(rec.home)]) == Some(rec)
  {
  }

  /** Through the nested splits, the decimal ids and the hex codec. */
  lemma RecordReadsBack(rec: Record)
    requires WellFormed(rec)
    ensures ParseLine(Format(rec)) == Some(rec)
  {
    LineHasFields(rec);
    HashFieldReadsBack(rec);
    IdReadsBack(rec.uid);
    IdReadsBack(rec.gid);
    FieldsMakeRecord(ParseId, ParseHash, rec, HashField(rec), Decimal(rec.uid), Decimal(rec.gid));
  }

  /** Every line fits the buffer it is printed into and read with. */
  lemma LineFits(rec: Record)
    requires WellFormed(rec.(name := "x")) && |rec.name| < USER_MAX
    ensures |Format(rec)| <= 217 < LINE_MAX_LEN
  {
    assert Pow10(5) == 100000 && Pow10(10) == 10000000000 by {
      assert Pow10(3) == 1000 && Pow10(6) == 1000 * Pow10(3) && Pow10(9) == 1000 * Pow10(6);
    }
    DecimalLength(rec.uid, 5);
    DecimalLength(rec.gid, 5);
    if !rec.locked {
      DecimalLength(rec.iters, 10);
    }
  }

  // ----- The file -----

  lemma BodyIsFree(rec: Record)
    requires WellFormed(rec.(name := "x")) && Free(rec.name, {'\n'})
    ensures Free(Body(rec), {'\n'})
  {
    var delims := {'\n'};
    HashFieldIsFree(rec);
    FreeOf(HashField(rec), {':', '\r', '\n'}, delims);
    DecimalIsFree(rec.uid, delims);
    DecimalIsFree(rec.gid, delims);
  }

  lemma BodyIsALine(rec: Record)
    requires WellFormed(rec)
    ensures Body(rec) != [] && Free(Body(rec), {'\n'}) && |Body(rec)| + 1 < LINE_MAX_LEN && !Skipped(Body(rec))
  {
    LineFits(rec);
    BodyIsFree(rec);
    assert Body(rec)[0] == rec.name[0];
  }

  lemma LineReadsBack(rec: Record)
    requires WellFormed(rec)
    ensures ReadsBack(ParseLine, Format, rec)
  {
    RecordReadsBack(rec);
    BodyIsALine(rec);
    LineMakesRecord(ParseLine, Format, rec, Body(rec));
  }

  lemma {:induction false} AllReadBack(recs: seq<Record>)
    requires forall i :: 0 <= i < |recs| ==> WellFormed(recs[i])
    ensures Readable(ParseLine, Format, recs)
  {
    if recs != [] {
      LineReadsBack(recs[0]);
      AllReadBack(recs[1..]);
    }
  }

  /** Storing any list of at most eight well-formed records and loading it back yields the list. */
  lemma PasswdRoundTrip(recs: seq<Record>)
    requires |recs| <= MAX_ACCOUNTS && forall i :: 0 <= i < |recs| ==> WellFormed(recs[i])
    ensures Loaded(ParseLine, Stored(Format, recs), MAX_ACCOUNTS) == recs
  {
    AllReadBack(recs);
    StoreThenLoad(ParseLine, Format, recs, MAX_ACCOUNTS);
  }

  // ----- Which names the file carries -----

  /** A token with more text after it holds no delimiter and no newline. */
  lemma TokenIsFree(line: string, delims: set<char>)
    requires OneLine(line)
    ensures var (t, rest) := Strtok(line, delims);
            t.Some? && rest != [] ==> Free(t.value, delims) && Free(t.value, {'\n'})
  {
    var m := Span(line, delims);
    var t := line[m..];
    if t != [] {
      CSpanStops(t, delims);
      var n := CSpan(t, delims);
      if n + 1 < |t| {
        forall i | 0 <= i < n ensures t[..n][i] != '\n' {
          assert t[..n][i] == line[..|line| - 1][m + i];
        }
      }
    }
  }

  predicate NoSeparator(rec: Record) {
    ':' !in rec.name && '\n' !in rec.name
  }

  lemma NoTokenInNothing(delims: set<char>)
    ensures Strtok([], delims) == (None, [])
  {
    var s: string := [];
    assert s[0..] == s;
  }

  /** Whatever the file says, no name read from it holds a colon or a newline. */
  lemma ParsedName(line: string)
    requires OneLine(line) && ParseLine(line).Some?
    ensures NoSeparator(ParseLine(line).value)
  {
    var (name, rest) := Strtok(line, {':'});
    TokenIsFree(line, {':'});
    NoTokenInNothing({':'});
    assert ParseLine(line).value.name == Copied(name.value, USER_MAX);
  }

  lemma LoadedNames(file: string, max: nat)
    ensures forall r :: r in Loaded(ParseLine, file, max) ==> NoSeparator(r)
  {
    forall line | OneLine(line) && ParseLine(line).Some? ensures NoSeparator(ParseLine(line).value) {
      ParsedName(line);
    }
    LoadedSatisfy(ParseLine, file, max, NoSeparator);
  }

  predicate PlainHome(rec: Record) {
    '\r' !in rec.home
  }

  /** Nor does any home read from it hold a CR. */
  lemma ParsedHome(line: string)
    requires ParseLine(line).Some?
    ensures PlainHome(ParseLine(line).value)
  {
    var f := Fields(line);
    LastFieldIsFree(line);
    assert ParseLine(line).value.home == Copied(if f[4] == None then "/" else f[4].value, HOME_MAX);
  }

  lemma LastFieldIsFree(line: string)
    ensures var home := Fields(line)[4]; home.Some? ==> '\r' !in home.value
  {
    var l4 := Strtok(Strtok(Strtok(Strtok(line, {':'}).1, {':'}).1, {':', '\r', '\n'}).1, {':', '\r', '\n'}).1;
    CSpanStops(l4[Span(l4, {':', '\r', '\n'})..], {':', '\r', '\n'});
  }

  lemma LoadedHomes(file: string, max: nat)
    ensures forall r :: r in Loaded(ParseLine, file, max) ==> PlainHome(r)
  {
    forall line | OneLine(line) && ParseLine(line).Some? ensures PlainHome(ParseLine(line).value) {
      ParsedHome(line);
    }
    LoadedSatisfy(ParseLine, file, max, PlainHome);
  }

  /** What useradd makes: a name of its own choosing, a home that is "/" or ends in the name, and the rest in order. */
  ghost predicate NewAccount(rec: Record) {
    && rec.name != [] && |rec.name| < USER_MAX && WellFormed(rec.(name := "x", home := "/"))
    && (rec.home == "/" || rec.home == "/home/" + rec.name)
  }

  lemma CarriedIsWellFormed(rec: Record)
    requires NewAccount(rec) && Carried(rec.name) && PlainHome(rec)
    ensures WellFormed(rec)
  {
    assert forall i :: 0 <= i < |"/home/"| ==> "/home/"[i] !in {':', '\r', '\n'};
  }

  lemma SkippedBody(rec: Record)
    requires NewAccount(rec) && NoSeparator(rec) && PlainHome(rec) && !Carried(rec.name)
    ensures |Body(rec)| + 1 < LINE_MAX_LEN && Free(Body(rec), {'\n'}) && Skipped(Body(rec))
  {
    var carried := rec.(name := "x");
    assert WellFormed(carried) by {
      assert forall i :: 0 <= i < |"/home/"| ==> "/home/"[i] !in {':', '\r', '\n'};
    }
    LineFits(rec);
    BodyIsFree(rec);
    assert Body(rec)[0] == rec.name[0];
  }

  lemma {:induction false} AppendWellFormed(recs: seq<Record>, rec: Record)
    requires (forall i :: 0 <= i < |recs| ==> WellFormed(recs[i])) && WellFormed(rec)
    ensures forall i :: 0 <= i < |recs + [rec]| ==> WellFormed((recs + [rec])[i])
  {
  }

  lemma NewAccountKept(recs: seq<Record>, rec: Record)
    requires |recs| < MAX_ACCOUNTS && (forall i :: 0 <= i < |recs| ==> WellFormed(recs[i])) && WellFormed(rec)
    ensures Loaded(ParseLine, Stored(Format, recs + [rec]), MAX_ACCOUNTS) == recs + [rec]
  {
    AppendWellFormed(recs, rec);
    PasswdRoundTrip(recs + [rec]);
  }

  lemma LostByName(recs: seq<Record>, rec: Record)
    requires !NoSeparator(rec)
    ensures Loaded(ParseLine, Stored(Format, recs + [rec]), MAX_ACCOUNTS) != recs + [rec]
  {
    LoadedNames(Stored(Format, recs + [rec]), MAX_ACCOUNTS);
    LastRecordLost(ParseLine, Format, recs, rec, MAX_ACCOUNTS, NoSeparator);
  }

  lemma LostByHome(recs: seq<Record>, rec: Record)
    requires !PlainHome(rec)
    ensures Loaded(ParseLine, Stored(Format, recs + [rec]), MAX_ACCOUNTS) != recs + [rec]
  {
    LoadedHomes(Stored(Format, recs + [rec]), MAX_ACCOUNTS);
    LastRecordLost(ParseLine, Format, recs, rec, MAX_ACCOUNTS, PlainHome);
  }

  lemma LostBySkip(recs: seq<Record>, rec: Record, body: string)
    requires |recs| < MAX_ACCOUNTS && Readable(ParseLine, Format, recs)
    requires Format(rec) == body + ['\n'] && |body| + 1 < LINE_MAX_LEN && Free(body, {'\n'}) && Skipped(body)
    ensures Loaded(ParseLine, Stored(Format, recs + [rec]), MAX_ACCOUNTS) != recs + [rec]
  {
    LastLineSkipped(ParseLine, Format, recs, rec, body, MAX_ACCOUNTS);
  }

  /** One more account is read back exactly when the file can carry its name, and the home its name is in. */
  lemma NewAccountReadsBack(recs: seq<Record>, rec: Record)
    requires |recs| < MAX_ACCOUNTS && (forall i :: 0 <= i < |recs| ==> WellFormed(recs[i])) && NewAccount(rec)
    ensures Loaded(ParseLine, Stored(Format, recs + [rec]), MAX_ACCOUNTS) == recs + [rec]
       <==> Carried(rec.name) && '\r' !in rec.home
  {
    if !NoSeparator(rec) {
      LostByName(recs, rec);
    } else if !PlainHome(rec) {
      LostByHome(recs, rec);
    } else if !Carried(rec.name) {
      AllReadBack(recs);
      SkippedBody(rec);
      LostBySkip(recs, rec, Body(rec));
    } else {
      CarriedIsWellFormed(rec);
      NewAccountKept(recs, rec);
    }
  }

  /** A name that holds colons is read as the fields it spells, and what was meant as fields is left over. */
  lemma ColonName(rec: Record, name: string, uid: nat, gid: nat, home: string)
    requires Carried(name) && |name| < USER_MAX && uid <= UINT16_MAX && gid <= UINT16_MAX
    requires home != [] && |home| < HOME_MAX && Free(home, {':', '\r', '\n'})
    requires rec.name == name + [':'] + (LOCKED_TAG + [':'] + (Decimal(uid) + [':'] + (Decimal(gid) + [':'] + home)))
    ensures ParseLine(Format(rec)) == Some(Record(name, 0, Zeros(SALT_LEN), Zeros(HASH_LEN), home, uid, gid, true))
  {
    var rest := HashField(rec) + [':'] + (Decimal(rec.uid) + [':'] + (Decimal(rec.gid) + [':'] + rec.home)) + ['\n'];
    var (u, g) := (Decimal(uid), Decimal(gid));
    var other := Record(name, 0, Zeros(SALT_LEN), Zeros(HASH_LEN), home, uid, gid, true);
    DecimalIsFree(uid, {':', '\r', '\n'});
    DecimalIsFree(gid, {':', '\r', '\n'});
    SplicedLine(name, LOCKED_TAG, u, g, home, HashField(rec), Decimal(rec.uid), Decimal(rec.gid), rec.home);
    FieldsReadBack(name, LOCKED_TAG, u, g, home, ':', rest);
    HashFieldReadsBack(other);
    IdReadsBack(uid);
    IdReadsBack(gid);
    FieldsMakeRecord(ParseId, ParseHash, other, LOCKED_TAG, u, g);
  }

  lemma SplicedLine(a: string, b: string, c: string, d: string, e: string, p: string, q: string, r: string, s: string)
    ensures (a + [':'] + (b + [':'] + (c + [':'] + (d + [':'] + e)))) + [':'] + (p + [':'] + (q + [':'] + (r + [':'] + s))) + ['\n']
         == a + [':'] + (b + [':'] + (c + [':'] + (d + [':'] + (e + [':'] + (p + [':'] + (q + [':'] + (r + [':'] + s)) + ['\n'])))))
  {
  }

  // ----- The id field is not as strict as it means to be -----

  ghost predicate AllDigits(s: string) {
    forall i :: 0 <= i < |s| ==> '0' <= s[i] <= '9'
  }

  /** What a strictly numeric field reads as. */
  ghost function StrictId(s: string): Option<nat> {
    if s != [] && AllDigits(s) && NumberValue(s, Ten) <= UINT16_MAX then Some(NumberValue(s, Ten)) else None
  }

  ghost predicate Signed(s: string) {
    s != [] && (s[0] == '+' || s[0] == '-')
  }

  /** A field without its leading white space and its sign. */
  ghost function Bare(s: string): string {
    var t := s[SpaceSpan(s)..];
    if Signed(t) then t[1..] else t
  }

  ghost predicate Negative(s: string) {
    var t := s[SpaceSpan(s)..];
    t != [] && t[0] == '-'
  }

  /** White space or a sign in front of digits whose value, wrapped at 32 bits, fits an id. */
  ghost predicate Decorated(s: string) {
    Bare(s) != s && Bare(s) != [] && AllDigits(Bare(s)) && Wrap(NumberValue(Bare(s), Ten), Negative(s)) <= UINT16_MAX
  }

  lemma {:induction false} SpanIsWhole(s: string)
    ensures DigitSpan(s, Ten) == |s| <==> AllDigits(s)
  {
    if s != [] {
      SpanIsWhole(s[1..]);
      assert AllDigits(s) <==> DigitValue(s[0]) < 10 && AllDigits(s[1..]);
    }
  }

  lemma StrtoulWhole(s: string)
    requires s != []
    ensures ParseId(Some(s))
         == if Bare(s) != [] && AllDigits(Bare(s)) && Wrap(NumberValue(Bare(s), Ten), Negative(s)) <= UINT16_MAX
            then Some(Wrap(NumberValue(Bare(s), Ten), Negative(s))) else None
  {
    var b := Bare(s);
    SpanIsWhole(b);
    assert b[..|b|] == b && b[0..] == b;
    assert Unsigned(b, Ten) == if DigitSpan(b, Ten) == 0 then (0, 0) else Magnitude(b, Ten);
    var t := s[SpaceSpan(s)..];
    assert t[0..] == t;
    assert WithSign(t, Ten) == if DigitSpan(b, Ten) == 0 then (0, 0)
                              else (Wrap(Magnitude(b, Ten).0, Negative(s)), |t| - |b| + DigitSpan(b, Ten));
  }

  lemma DigitsAreBare(s: string)
    requires AllDigits(s)
    ensures Bare(s) == s && !Negative(s)
  {
    assert s[0..] == s;
  }

  /** The id reader is strict on a field exactly when no blank or sign stands in front of a number that fits. */
  lemma StrictUnlessDecorated(s: string)
    ensures ParseId(Some(s)) == StrictId(s) <==> !Decorated(s)
  {
    if s != [] {
      StrtoulWhole(s);
    }
    if AllDigits(s) {
      DigitsAreBare(s);
    }
  }

  lemma MinusIsBare(d: string)
    requires d != [] && Digits(d, Ten)
    ensures Bare(['-'] + d) == d && Negative(['-'] + d) && AllDigits(d)
  {
    var s := ['-'] + d;
    assert s[0..] == s && s[1..] == d;
  }

  /** A negative number wraps at 32 bits, and the last 65535 of them are accepted as ids. */
  lemma NegativeIdWraps(v: nat)
    requires 1 <= v <= ULONG_MAX
    ensures ParseId(Some(['-'] + Decimal(v)))
         == if ULONG_MAX + 1 - v <= UINT16_MAX then Some(ULONG_MAX + 1 - v) else None
  {
    DecimalReadsBack(v);
    MinusIsBare(Decimal(v));
    StrtoulWhole(['-'] + Decimal(v));
  }
}
