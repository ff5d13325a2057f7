/**
 The mode language of chmod: four octal digits, or a comma-separated list of symbolic
 clauses. What a spec means is a mask to keep and a mask to set; neither depends on the
 mode it is applied to.
 */
module ChmodSpec {

  /** A mode is the set of its bits, bit 0 the least significant. */
  type Mode = set<nat>

  const MODE_BITS: Mode := set i | 0 <= i < 12   // 07777
  const USER: Mode := {6, 7, 8}                  // 0700
  const GROUP: Mode := {3, 4, 5}                 // 0070
  const OTHER: Mode := {0, 1, 2}                 // 0007
  const ALL: Mode := USER + GROUP + OTHER        // 0777
  const READ: Mode := {2, 5, 8}                  // 0444
  const WRITE: Mode := {1, 4, 7}                 // 0222
  const EXEC: Mode := {0, 3, 6}                  // 0111
  const SETUID: Mode := {11}                     // 04000
  const SETGID: Mode := {10}                     // 02000
  const STICKY: Mode := {9}                      // 01000

  datatype Error = EmptyMode | NotOctal | OutOfRange | ExpectedOp | ExpectedPerm
  datatype Result<T> = Ok(value: T) | Err(error: Error)

  datatype Op = Plus | Minus | Equals

  /** `who` as the classes name it, `bits` within them, `high` the setuid, setgid and sticky bits. */
  datatype Clause = Clause(who: Mode, op: Op, bits: Mode, high: Mode)

  datatype Spec = Octal(mode: Mode) | Symbolic(clauses: seq<Clause>)

  // ----- The grammar -----

  predicate IsWho(c: char) {
    c == 'u' || c == 'g' || c == 'o' || c == 'a'
  }

  function WhoBits(c: char): Mode {
    if c == 'u' then USER else if c == 'g' then GROUP else if c == 'o' then OTHER else ALL
  }

  /** The classes named at the start of `s` added to `who`, and what follows them. */
  function Who(s: string, who: Mode): (r: (Mode, string))
    ensures |r.1| <= |s|
  {
    if s == [] || !IsWho(s[0]) then (who, s) else Who(s[1..], who + WhoBits(s[0]))
  }

  function OpOf(c: char): Result<Op> {
    if c == '+' then Ok(Plus) else if c == '-' then Ok(Minus) else if c == '=' then Ok(Equals) else Err(ExpectedOp)
  }

  predicate IsPerm(c: char) {
    c == 'r' || c == 'w' || c == 'x' || c == 's' || c == 't'
  }

  function PermBits(c: char): Mode {
    if c == 'r' then READ else if c == 'w' then WRITE else if c == 'x' then EXEC else {}
  }

  function HighOf(who: Mode): Mode {
    (if who * USER != {} then SETUID else {}) + (if who * GROUP != {} then SETGID else {})
  }

  function PermHigh(c: char, who: Mode): Mode {
    if c == 's' then HighOf(who) else if c == 't' then STICKY else {}
  }

  /** The permissions at the start of `s` up to a comma or the end, and what follows them. */
  function Perms(s: string, who: Mode, bits: Mode, high: Mode): (r: Result<(Mode, Mode, string)>)
    ensures r.Ok? ==> |r.value.2| <= |s| && (r.value.2 != [] ==> r.value.2[0] == ',')
  {
    if s == [] || s[0] == ',' then Ok((bits, high, s))
    else if !IsPerm(s[0]) then Err(ExpectedPerm)
    else Perms(s[1..], who, bits + PermBits(s[0]), high + PermHigh(s[0], who))
  }

  function Effective(who: Mode): Mode {
    if who == {} then ALL else who
  }

  /** A clause for these classes, from its operator on. */
  function ClauseFor(who: Mode, s: string): (r: Result<(Clause, string)>)
    ensures r.Ok? ==> |r.value.1| < |s| && (r.value.1 != [] ==> r.value.1[0] == ',')
  {
    if s == [] then Err(ExpectedOp)
    else match OpOf(s[0])
      case Err(e) => Err(e)
      case Ok(op) =>
        match Perms(s[1..], who, {}, {})
        case Err(e) => Err(e)
        case Ok((bits, high, rest)) => Ok((Clause(who, op, bits * who, high), rest))
  }

  /** The clause at the start of `s`, and what follows it: nothing, or a comma. */
  function FirstClause(s: string): (r: Result<(Clause, string)>)
    ensures r.Ok? ==> |r.value.1| < |s| && (r.value.1 != [] ==> r.value.1[0] == ',')
  {
    var (named, s1) := Who(s, {});
    ClauseFor(Effective(named), s1)
  }

  function Clauses(s: string): Result<seq<Clause>>
    decreases |s|
  {
    match FirstClause(s)
    case Err(e) => Err(e)
    case Ok((clause, rest)) =>
      if rest == [] then Ok([clause])
      else match Clauses(rest[1..])
        case Err(e) => Err(e)
        case Ok(more) => Ok([clause] + more)
  }

  predicate IsDigit(c: char) {
    '0' <= c <= '9'
  }

  predicate IsOctal(c: char) {
    '0' <= c <= '7'
  }

  function DigitOf(c: char): nat
    requires IsOctal(c)
  {
    c as int - '0' as int
  }

  function OctalValue(s: string): nat
    requires forall i :: 0 <= i < |s| ==> IsOctal(s[i])
  {
    if s == [] then 0 else OctalValue(s[..|s| - 1]) * 8 + DigitOf(s[|s| - 1])
  }

  predicate BitOf(v: nat, i: nat) {
    if i == 0 then v % 2 == 1 else BitOf(v / 2, i - 1)
  }

  function Bits(v: nat): Mode {
    set i | 0 <= i < 12 && BitOf(v, i)
  }

  function Parse(s: string): Result<Spec> {
    if s == [] then Err(EmptyMode)
    else if IsDigit(s[0]) then
      if exists i :: 0 <= i < |s| && !IsOctal(s[i]) then Err(NotOctal)
      else if OctalValue(s) > 4095 then Err(OutOfRange)
      else Ok(Octal(Bits(OctalValue(s))))
    else match Clauses(s)
      case Err(e) => Err(e)
      case Ok(cs) => Ok(Symbolic(cs))
  }

  // ----- The meaning -----

  function ClassHigh(who: Mode): Mode {
    HighOf(who) + (if who * OTHER != {} then STICKY else {})
  }

  function ApplyClause(c: Clause, mode: Mode): Mode {
    match c.op
    case Plus => mode + (c.bits + c.high)
    case Minus => mode - (c.bits + c.high)
    case Equals => (mode - (c.who + ClassHigh(c.who))) + c.bits + c.high
  }

  function ApplyAll(cs: seq<Clause>, mode: Mode): Mode {
    if cs == [] then mode else ApplyAll(cs[1..], ApplyClause(cs[0], mode))
  }

  function Apply(spec: Spec, mode: Mode): Mode {
    match spec
    case Octal(m) => m
    case Symbolic(cs) => ApplyAll(cs, mode) * MODE_BITS
  }

  // ----- The code -----

  method ParseWho(s: string, start: nat) returns (who: Mode, p: nat)
    requires start <= |s|
    ensures start <= p <= |s|
    ensures Who(s[start..], {}) == (who, s[p..])
  {
    who, p := {}, start;
    while p < |s| && IsWho(s[p])
      invariant start <= p <= |s|
      invariant Who(s[start..], {}) == Who(s[p..], who)
    {
      assert s[p..][0] == s[p] && s[p..][1..] == s[p + 1..];
      who := who + WhoBits(s[p]);
      p := p + 1;
    }
    assert p < |s| ==> s[p..][0] == s[p];
  }

  method ParsePerms(s: string, start: nat, who: Mode) returns (ok: bool, bits: Mode, high: Mode, p: nat)
    requires start <= |s|
    ensures ok ==> start <= p <= |s| && Perms(s[start..], who, {}, {}) == Ok((bits, high, s[p..]))
    ensures !ok ==> Perms(s[start..], who, {}, {}) == Err(ExpectedPerm)
  {
    bits, high, p := {}, {}, start;
    while p < |s| && s[p] != ','
      invariant start <= p <= |s|
      invariant Perms(s[start..], who, {}, {}) == Perms(s[p..], who, bits, high)
    {
      assert s[p..][0] == s[p] && s[p..][1..] == s[p + 1..];
      if !IsPerm(s[p]) {
        return false, bits, high, p;
      }
      bits := bits + PermBits(s[p]);
      high := high + PermHigh(s[p], who);
      p := p + 1;
    }
    assert p < |s| ==> s[p..][0] == s[p];
    ok := true;
  }

  method ParseOctal(s: string) returns (r: Result<Mode>)
    ensures (exists i :: 0 <= i < |s| && !IsOctal(s[i])) ==> r == Err(NotOctal)
    ensures (forall i :: 0 <= i < |s| ==> IsOctal(s[i])) ==>
              r == if OctalValue(s) > 4095 then Err(OutOfRange) else Ok(Bits(OctalValue(s)))
  {
    var v := 0;
    for i := 0 to |s|
      invariant forall j :: 0 <= j < i ==> IsOctal(s[j])
      invariant v == OctalValue(s[..i])
    {
      if !IsOctal(s[i]) {
        return Err(NotOctal);
      }
      assert s[..i + 1][..i] == s[..i] && s[..i + 1][i] == s[i];
      v := v * 8 + DigitOf(s[i]);
    }
    assert s[..|s|] == s;
    r := if v > 4095 then Err(OutOfRange) else Ok(Bits(v));
  }

  /** The high bits that go with the classes: `=` replaces them too. */
  method WhoHigh(who: Mode) returns (whoHigh: Mode)
    ensures whoHigh == ClassHigh(who)
  {
    whoHigh := {};
    if who * USER != {} {
      whoHigh := whoHigh + SETUID;
    }
    if who * GROUP != {} {
      whoHigh := whoHigh + SETGID;
    }
    if who * OTHER != {} {
      whoHigh := whoHigh + STICKY;
    }
  }

  /** One clause against the mode built so far. */
  method Update(mode: Mode, who: Mode, op: Op, bits: Mode, high: Mode) returns (m: Mode)
    ensures m == ApplyClause(Clause(who, op, bits, high), mode)
  {
    var whoHigh := WhoHigh(who);
    match op
    case Plus => m := mode + (bits + high);
    case Minus => m := mode - (bits + high);
    case Equals => m := (mode - (who + whoHigh)) + bits + high;
  }

  lemma {:induction false} ApplyAppend(cs: seq<Clause>, c: Clause, mode: Mode)
    ensures ApplyAll(cs + [c], mode) == ApplyClause(c, ApplyAll(cs, mode))
  {
    if cs == [] {
      assert cs + [c] == [c];
      assert ApplyAll([c][1..], ApplyClause(c, mode)) == ApplyClause(c, mode);
    } else {
      ApplyAppend(cs[1..], c, ApplyClause(cs[0], mode));
      assert (cs + [c])[1..] == cs[1..] + [c];
    }
  }

  /** What is left to parse completes what was parsed. */
  ghost predicate Completes(all: Result<seq<Clause>>, done: seq<Clause>, rest: Result<seq<Clause>>) {
    match rest
    case Err(e) => all == Err(e)
    case Ok(cs) => all == Ok(done + cs)
  }

  /** One clause parsed brings the whole one clause further. */
  lemma Advance(all: Result<seq<Clause>>, done: seq<Clause>, s: string)
    requires Completes(all, done, Clauses(s))
    ensures match FirstClause(s)
      case Err(e) => all == Err(e)
      case Ok((clause, rest)) =>
        if rest == [] then all == Ok(done + [clause]) else Completes(all, done + [clause], Clauses(rest[1..]))
  {
    var first := FirstClause(s);
    if first.Ok? && first.value.1 != [] {
      var more := Clauses(first.value.1[1..]);
      if more.Ok? {
        assert done + ([first.value.0] + more.value) == (done + [first.value.0]) + more.value;
      }
    }
  }

  /** One clause from `p` on, applied to `mode`; `p2` is where it ends. */
  method ParseClause(s: string, p: nat, mode: Mode) returns (r: Result<Mode>, p2: nat)
    requires p <= |s|
    ensures match FirstClause(s[p..])
      case Err(e) => r == Err(e)
      case Ok((clause, rest)) => p < p2 <= |s| && rest == s[p2..] && r == Ok(ApplyClause(clause, mode))
  {
    var named, p1 := ParseWho(s, p);
    p2 := p1;
    var who := Effective(named);
    if p1 == |s| {
      return Err(ExpectedOp), p2;
    }
    assert s[p1..][0] == s[p1] && s[p1..][1..] == s[p1 + 1..];
    var op := OpOf(s[p1]);
    if op.Err? {
      return Err(op.error), p2;
    }
    var ok, bits, high;
    ok, bits, high, p2 := ParsePerms(s, p1 + 1, who);
    if !ok {
      return Err(ExpectedPerm), p2;
    }
    bits := bits * who;
    var m := Update(mode, who, op.value, bits, high);
    r := Ok(m);
  }

  method ParseSymbolic(s: string, cur: Mode) returns (r: Result<Mode>)
    ensures Clauses(s).Err? ==> r == Err(Clauses(s).error)
    ensures Clauses(s).Ok? ==> r == Ok(ApplyAll(Clauses(s).value, cur) * MODE_BITS)
  {
    var mode, p := cur, 0;
    ghost var done: seq<Clause> := [];
    assert s[0..] == s;
    assert Clauses(s).Ok? ==> done + Clauses(s).value == Clauses(s).value;
    while true
      invariant 0 <= p <= |s|
      invariant Completes(Clauses(s), done, Clauses(s[p..]))
      invariant mode == ApplyAll(done, cur)
      decreases |s| - p
    {
      Advance(Clauses(s), done, s[p..]);
      var m, p2 := ParseClause(s, p, mode);
      if m.Err? {
        return m;
      }
      ghost var clause := FirstClause(s[p..]).value.0;
      ApplyAppend(done, clause, cur);
      mode := m.value;
      done := done + [clause];
      if p2 == |s| {
        return Ok(mode * MODE_BITS);
      }
      assert s[p2..][1..] == s[p2 + 1..];
      p := p2 + 1;
    }
  }

  method ChmodParse(s: string, cur: Mode) returns (r: Result<Mode>)
    ensures Parse(s).Err? ==> r == Err(Parse(s).error)
    ensures Parse(s).Ok? ==> r == Ok(Apply(Parse(s).value, cur))
  {
    if s == [] {
      return Err(EmptyMode);
    }
    if IsDigit(s[0]) {
      r := ParseOctal(s);
    } else {
      r := ParseSymbolic(s, cur);
    }
  }

  // ----- What a spec can do -----

  /** The bits a clause clears, and the bits it then sets. */
  function ClauseMasks(c: Clause): (Mode, Mode) {
    match c.op
    case Plus => ({}, c.bits + c.high)
    case Minus => (c.bits + c.high, {})
    case Equals => (c.who + ClassHigh(c.who), c.bits + c.high)
  }

  function Masks(cs: seq<Clause>): (Mode, Mode) {
    if cs == [] then ({}, {})
    else
      var (k1, b1) := ClauseMasks(cs[0]);
      var (k2, b2) := Masks(cs[1..]);
      (k1 + k2, (b1 - k2) + b2)
  }

  function SpecMasks(spec: Spec): (Mode, Mode) {
    match spec
    case Octal(m) => (MODE_BITS, m)
    case Symbolic(cs) => Masks(cs)
  }

  lemma {:induction false} ClausesAreMasked(cs: seq<Clause>, mode: Mode)
    ensures ApplyAll(cs, mode) == (mode - Masks(cs).0) + Masks(cs).1
  {
    if cs == [] {
      assert mode == (mode - {}) + {};
    } else {
      var (k1, b1) := ClauseMasks(cs[0]);
      var (k2, b2) := Masks(cs[1..]);
      assert ApplyClause(cs[0], mode) == (mode - k1) + b1;
      ClausesAreMasked(cs[1..], (mode - k1) + b1);
      assert (((mode - k1) + b1) - k2) + b2 == (mode - (k1 + k2)) + ((b1 - k2) + b2);
    }
  }

  /** Every accepted spec clears one mask, sets another, and yields twelve bits; both come from the spec alone. */
  lemma SpecIsMasked(s: string, spec: Spec, mode: Mode)
    requires Parse(s) == Ok(spec)
    ensures Apply(spec, mode) == ((mode - SpecMasks(spec).0) + SpecMasks(spec).1) * MODE_BITS
  {
    match spec
    case Octal(m) =>
      assert m <= MODE_BITS;
    case Symbolic(cs) => ClausesAreMasked(cs, mode);
  }

  /** Applying a spec twice is applying it once, and the result is a mode. */
  lemma SpecIsIdempotent(s: string, spec: Spec, mode: Mode)
    requires Parse(s) == Ok(spec)
    ensures Apply(spec, Apply(spec, mode)) == Apply(spec, mode)
    ensures Apply(spec, mode) <= MODE_BITS
  {
    SpecIsMasked(s, spec, mode);
    SpecIsMasked(s, spec, Apply(spec, mode));
  }

  // ----- Bit by bit: the last clause that speaks of a bit decides it -----

  datatype Verdict = Keep | Set | Clear

  function Says(c: Clause, b: nat): Verdict {
    var named := b in c.bits || b in c.high;
    match c.op
    case Plus => if named then Set else Keep
    case Minus => if named then Clear else Keep
    case Equals => if named then Set else if b in c.who || b in ClassHigh(c.who) then Clear else Keep
  }

  function LastWord(cs: seq<Clause>, b: nat): Verdict {
    if cs == [] then Keep
    else
      var last := Says(cs[|cs| - 1], b);
      if last != Keep then last else LastWord(cs[..|cs| - 1], b)
  }

  /** A symbolic spec read bit by bit. */
  lemma {:induction false} LastClauseWins(cs: seq<Clause>, mode: Mode, b: nat)
    ensures b in ApplyAll(cs, mode) <==>
              match LastWord(cs, b) case Set => true case Clear => false case Keep => b in mode
  {
    if cs != [] {
      var (init, last) := (cs[..|cs| - 1], cs[|cs| - 1]);
      assert cs == init + [last];
      ApplyAppend(init, last, mode);
      LastClauseWins(init, mode, b);
    }
  }
}
