/**
 The mode language of chmod told by the letters and digits a user types: which bit each of
 them sets, clears or replaces, and that nothing else is accepted.
 */
module ChmodLetters {
  import opened ChmodSpec

  // ----- What the letters of a clause say, by the number of the bit -----

  /** Class letters, an operator and permission letters. */
  ghost predicate ClauseLetters(who: string, op: char, perms: string) {
    && (forall i :: 0 <= i < |who| ==> who[i] in "ugoa")
    && op in "+-="
    && (forall i :: 0 <= i < |perms| ==> perms[i] in "rwxst")
  }

  /** A class is meant when its letter is there, or `a`, or no letter at all. */
  ghost predicate Means(who: string, letter: char) {
    letter in who || 'a' in who || who == []
  }

  /** The letter of the class that bit `b` belongs to: bits 0 to 2 are the others', then the group's, then the user's. */
  ghost predicate ClassMeant(who: string, b: nat)
    requires b < 9
  {
    Means(who, "ogu"[b / 3])
  }

  ghost predicate BitMeant(who: string, perms: string, b: nat) {
    if b < 9 then ClassMeant(who, b) && "xwr"[b % 3] in perms
    else if b == 9 then 't' in perms
    else if b == 10 then 's' in perms && Means(who, 'g')
    else b == 11 && 's' in perms && Means(who, 'u')
  }

  /** The bits that `=` takes from a class: its three, and the one above that goes with it. */
  ghost predicate BitReplaced(who: string, b: nat) {
    if b < 9 then ClassMeant(who, b)
    else b < 12 && Means(who, "ogu"[b - 9])
  }

  lemma WhoBitsAre(c: char, b: nat)
    requires c in "ugoa"
    ensures b in WhoBits(c) <==> b < 9 && (c == 'a' || c == "ogu"[b / 3])
  {
  }

  lemma {:induction false} WhoLetters(who: string, rest: string, acc: Mode, b: nat)
    requires (forall i :: 0 <= i < |who| ==> who[i] in "ugoa") && (rest == [] || rest[0] !in "ugoa")
    ensures Who(who + rest, acc).1 == rest
    ensures b in Who(who + rest, acc).0 <==> b in acc || (b < 9 && ('a' in who || "ogu"[b / 3] in who))
    decreases |who|
  {
    if who == [] {
      assert who + rest == rest;
    } else {
      assert (who + rest)[1..] == who[1..] + rest;
      WhoBitsAre(who[0], b);
      WhoLetters(who[1..], rest, acc + WhoBits(who[0]), b);
      assert forall c :: c in who <==> c == who[0] || c in who[1..];
    }
  }

  lemma PermBitsAre(c: char, b: nat)
    requires c in "rwxst"
    ensures b in PermBits(c) <==> b < 9 && c == "xwr"[b % 3]
  {
  }

  lemma PermHighAre(c: char, who: Mode, b: nat)
    requires c in "rwxst"
    ensures b in PermHigh(c, who) <==>
              || (c == 't' && b == 9)
              || (c == 's' && ((b == 10 && who * GROUP != {}) || (b == 11 && who * USER != {})))
  {
  }

  lemma {:induction false} PermLetters(perms: string, rest: string, who: Mode, bits: Mode, high: Mode, b: nat)
    requires (forall i :: 0 <= i < |perms| ==> perms[i] in "rwxst") && (rest == [] || rest[0] == ',')
    ensures Perms(perms + rest, who, bits, high).Ok?
    ensures var (bs, hs, tail) := Perms(perms + rest, who, bits, high).value;
            && tail == rest
            && (b in bs <==> b in bits || (b < 9 && "xwr"[b % 3] in perms))
            && (b in hs <==> || b in high || ('t' in perms && b == 9)
                             || ('s' in perms && ((b == 10 && who * GROUP != {}) || (b == 11 && who * USER != {}))))
    decreases |perms|
  {
    if perms == [] {
      assert perms + rest == rest;
    } else {
      assert (perms + rest)[1..] == perms[1..] + rest;
      PermBitsAre(perms[0], b);
      PermHighAre(perms[0], who, b);
      PermLetters(perms[1..], rest, who, bits + PermBits(perms[0]), high + PermHigh(perms[0], who), b);
      assert forall c :: c in perms <==> c == perms[0] || c in perms[1..];
    }
  }

  lemma SomeBit(who: string, rest: string)
    requires who != [] && (forall i :: 0 <= i < |who| ==> who[i] in "ugoa") && (rest == [] || rest[0] !in "ugoa")
    ensures Who(who + rest, {}).0 != {}
  {
    var b := if who[0] == 'o' then 0 else if who[0] == 'g' then 3 else 6;
    WhoLetters(who, rest, {}, b);
  }

  lemma NamedBit(who: string, rest: string, b: nat)
    requires (forall i :: 0 <= i < |who| ==> who[i] in "ugoa") && (rest == [] || rest[0] !in "ugoa")
    ensures b in Effective(Who(who + rest, {}).0) <==> b < 9 && ClassMeant(who, b)
  {
    WhoLetters(who, rest, {}, b);
    if who == [] {
      assert who + rest == rest;
    } else {
      SomeBit(who, rest);
    }
  }

  /** The classes meant, as the bits they have. */
  lemma NamedClasses(who: string, rest: string, classes: Mode)
    requires (forall i :: 0 <= i < |who| ==> who[i] in "ugoa") && (rest == [] || rest[0] !in "ugoa")
    requires classes == set b | 0 <= b < 9 && ClassMeant(who, b)
    ensures Effective(Who(who + rest, {}).0) == classes
  {
    var named := Effective(Who(who + rest, {}).0);
    forall b: nat ensures b in named <==> b in classes {
      NamedBit(who, rest, b);
    }
  }

  lemma Triads(who: string, classes: Mode)
    requires classes == set b | 0 <= b < 9 && ClassMeant(who, b)
    ensures classes * OTHER != {} <==> Means(who, 'o')
    ensures classes * GROUP != {} <==> Means(who, 'g')
    ensures classes * USER != {} <==> Means(who, 'u')
  {
    assert Means(who, 'o') ==> 0 in classes * OTHER;
    assert Means(who, 'g') ==> 3 in classes * GROUP;
    assert Means(who, 'u') ==> 6 in classes * USER;
  }

  datatype Letters = Letters(who: string, op: char, perms: string) {
    ghost predicate Proper() {
      ClauseLetters(who, op, perms)
    }

    function Text(): string {
      who + [op] + perms
    }
  }

  lemma OperatorParses(op: char, perms: string, rest: string, who: Mode)
    requires op in "+-=" && (forall i :: 0 <= i < |perms| ==> perms[i] in "rwxst") && (rest == [] || rest[0] == ',')
    ensures Perms(perms + rest, who, {}, {}).Ok? && OpOf(op).Ok?
    ensures var (bits, high, tail) := Perms(perms + rest, who, {}, {}).value;
            ClauseFor(who, [op] + (perms + rest)) == Ok((Clause(who, OpOf(op).value, bits * who, high), rest))
  {
    assert ([op] + (perms + rest))[1..] == perms + rest;
    PermLetters(perms, rest, who, {}, {}, 0);
  }

  lemma ClauseParses(l: Letters, rest: string, who: Mode)
    requires l.Proper() && (rest == [] || rest[0] == ',') && who == set b | 0 <= b < 9 && ClassMeant(l.who, b)
    ensures FirstClause(l.Text() + rest) == ClauseFor(who, [l.op] + (l.perms + rest))
  {
    var s1 := [l.op] + (l.perms + rest);
    assert l.Text() + rest == l.who + s1;
    NamedClasses(l.who, s1, who);
    WhoLetters(l.who, s1, {}, 0);
  }

  lemma LettersToBits(l: Letters, who: Mode, bits: Mode, high: Mode, b: nat)
    requires who == set i | 0 <= i < 9 && ClassMeant(l.who, i)
    requires b in bits <==> b < 9 && "xwr"[b % 3] in l.perms
    requires b in high <==> || ('t' in l.perms && b == 9)
                            || ('s' in l.perms && ((b == 10 && who * GROUP != {}) || (b == 11 && who * USER != {})))
    ensures b in bits * who || b in high <==> BitMeant(l.who, l.perms, b)
    ensures b in who || b in ClassHigh(who) <==> BitReplaced(l.who, b)
  {
    Triads(l.who, who);
  }

  /** A clause of proper letters is parsed whole, and holds the bits its letters say. */
  lemma ClauseBits(l: Letters, rest: string, b: nat)
    requires l.Proper() && (rest == [] || rest[0] == ',')
    ensures FirstClause(l.Text() + rest).Ok?
    ensures var (c, tail) := FirstClause(l.Text() + rest).value;
            && tail == rest && OpOf(l.op) == Ok(c.op)
            && (b in c.bits || b in c.high <==> BitMeant(l.who, l.perms, b))
            && (b in c.who || b in ClassHigh(c.who) <==> BitReplaced(l.who, b))
  {
    var who := set i | 0 <= i < 9 && ClassMeant(l.who, i);
    ClauseParses(l, rest, who);
    OperatorParses(l.op, l.perms, rest, who);
    PermLetters(l.perms, rest, who, {}, {}, b);
    var (bits, high, tail) := Perms(l.perms + rest, who, {}, {}).value;
    LettersToBits(l, who, bits, high, b);
  }

  /** What one clause makes of a bit that was or was not set. */
  ghost predicate BitAfter(l: Letters, b: nat, was: bool) {
    if l.op == '+' then was || BitMeant(l.who, l.perms, b)
    else if l.op == '-' then was && !BitMeant(l.who, l.perms, b)
    else BitMeant(l.who, l.perms, b) || (was && !BitReplaced(l.who, b))
  }

  ghost predicate BitAfterAll(ls: seq<Letters>, b: nat, was: bool) {
    if ls == [] then was else BitAfterAll(ls[1..], b, BitAfter(ls[0], b, was))
  }

  ghost predicate AllProper(ls: seq<Letters>) {
    forall i :: 0 <= i < |ls| ==> ls[i].Proper()
  }

  /** The clauses with commas between. */
  function TextOf(ls: seq<Letters>): string
    requires ls != []
  {
    if |ls| == 1 then ls[0].Text() else ls[0].Text() + [','] + TextOf(ls[1..])
  }

  lemma AppliedBit(l: Letters, c: Clause, mode: Mode, b: nat)
    requires OpOf(l.op) == Ok(c.op)
    requires b in c.bits || b in c.high <==> BitMeant(l.who, l.perms, b)
    requires b in c.who || b in ClassHigh(c.who) <==> BitReplaced(l.who, b)
    ensures b in ApplyClause(c, mode) <==> BitAfter(l, b, b in mode)
  {
  }

  lemma {:induction false} ClausesBits(ls: seq<Letters>, mode: Mode, b: nat)
    requires ls != [] && AllProper(ls)
    ensures Clauses(TextOf(ls)).Ok?
    ensures b in ApplyAll(Clauses(TextOf(ls)).value, mode) <==> BitAfterAll(ls, b, b in mode)
  {
    var rest := if |ls| == 1 then [] else [','] + TextOf(ls[1..]);
    assert TextOf(ls) == ls[0].Text() + rest;
    ClauseBits(ls[0], rest, b);
    var c := FirstClause(TextOf(ls)).value.0;
    var next := ApplyClause(c, mode);
    AppliedBit(ls[0], c, mode, b);
    if |ls| > 1 {
      assert rest[1..] == TextOf(ls[1..]);
      ClausesBits(ls[1..], next, b);
      var more := Clauses(TextOf(ls[1..])).value;
      assert ([c] + more)[1..] == more;
    } else {
      assert ls[1..] == [] && [c][1..] == [];
      assert ApplyAll([c], mode) == ApplyAll([], next);
    }
  }

  /** The whole meaning of a symbolic spec, letter by letter and bit by bit. */
  lemma SymbolicBits(ls: seq<Letters>, mode: Mode, b: nat)
    requires ls != [] && AllProper(ls)
    ensures Parse(TextOf(ls)).Ok?
    ensures b in Apply(Parse(TextOf(ls)).value, mode) <==> b < 12 && BitAfterAll(ls, b, b in mode)
  {
    ClausesBits(ls, mode, b);
    var s := TextOf(ls);
    assert s != [] && s[0] == (ls[0].who + [ls[0].op])[0];
    assert !IsDigit(s[0]);
  }

  // ----- Only such texts are accepted -----

  lemma {:induction false} WhoSplits(s: string, acc: Mode) returns (who: string)
    ensures s == who + Who(s, acc).1 && (forall i :: 0 <= i < |who| ==> who[i] in "ugoa")
    decreases |s|
  {
    if s == [] || !IsWho(s[0]) {
      who := [];
    } else {
      var more := WhoSplits(s[1..], acc + WhoBits(s[0]));
      who := [s[0]] + more;
    }
  }

  lemma {:induction false} PermsSplit(s: string, who: Mode, bits: Mode, high: Mode) returns (perms: string)
    requires Perms(s, who, bits, high).Ok?
    ensures s == perms + Perms(s, who, bits, high).value.2 && (forall i :: 0 <= i < |perms| ==> perms[i] in "rwxst")
    decreases |s|
  {
    if s == [] || s[0] == ',' {
      perms := [];
    } else {
      var more := PermsSplit(s[1..], who, bits + PermBits(s[0]), high + PermHigh(s[0], who));
      perms := [s[0]] + more;
    }
  }

  lemma OperatorSplits(who: Mode, s: string) returns (perms: string)
    requires ClauseFor(who, s).Ok?
    ensures s != [] && s[0] in "+-=" && (forall i :: 0 <= i < |perms| ==> perms[i] in "rwxst")
    ensures s == [s[0]] + (perms + ClauseFor(who, s).value.1)
  {
    perms := PermsSplit(s[1..], who, {}, {});
    assert s == [s[0]] + s[1..];
  }

  lemma ClauseSplits(s: string) returns (l: Letters)
    requires FirstClause(s).Ok?
    ensures l.Proper() && s == l.Text() + FirstClause(s).value.1
  {
    var who := WhoSplits(s, {});
    var (named, s1) := Who(s, {});
    var perms := OperatorSplits(Effective(named), s1);
    l := Letters(who, s1[0], perms);
    Assoc(who, [s1[0]], perms, FirstClause(s).value.1);
  }

  lemma Assoc(a: string, b: string, c: string, d: string)
    ensures a + (b + (c + d)) == (a + b + c) + d
  {
  }

  lemma {:induction false} AcceptedIsLetters(s: string) returns (ls: seq<Letters>)
    requires Clauses(s).Ok?
    ensures ls != [] && AllProper(ls) && s == TextOf(ls)
    decreases |s|
  {
    var l := ClauseSplits(s);
    var rest := FirstClause(s).value.1;
    if rest == [] {
      ls := [l];
    } else {
      var more := AcceptedIsLetters(rest[1..]);
      ls := [l] + more;
      OneMoreClause(s, l, rest, more);
    }
  }

  lemma OneMoreClause(s: string, l: Letters, rest: string, more: seq<Letters>)
    requires l.Proper() && more != [] && AllProper(more)
    requires s == l.Text() + rest && rest != [] && rest[0] == ',' && rest[1..] == TextOf(more)
    ensures AllProper([l] + more) && s == TextOf([l] + more)
  {
    assert ([l] + more)[1..] == more;
    assert rest == [','] + TextOf(more);
  }

  // ----- Octal -----

  /** The digits whose binary form has bit `k`. */
  ghost predicate DigitHas(c: char, k: nat)
    requires k < 3
  {
    c in (if k == 0 then "1357" else if k == 1 then "2367" else "4567")
  }

  lemma DigitBits(c: char, k: nat)
    requires '0' <= c <= '7' && k < 3
    ensures DigitHas(c, k)
       <==> DigitOf(c) in (if k == 0 then {1, 3, 5, 7} else if k == 1 then {2, 3, 6, 7} else {4, 5, 6, 7})
  {
  }

  /** Digit by digit: each gives three bits, the last digit the lowest. */
  lemma {:induction false} OctalBits(s: string, j: nat, k: nat)
    requires (forall i :: 0 <= i < |s| ==> '0' <= s[i] <= '7') && k < 3
    ensures BitOf(OctalValue(s), 3 * j + k) <==> j < |s| && DigitHas(s[|s| - 1 - j], k)
    decreases |s|
  {
    if s == [] {
      NoBits(3 * j + k);
    } else {
      var (init, last) := (s[..|s| - 1], s[|s| - 1]);
      if j == 0 {
        LowBits(OctalValue(init), DigitOf(last), k);
        DigitBits(last, k);
      } else {
        HighBits(OctalValue(init), DigitOf(last), 3 * j + k);
        OctalBits(init, j - 1, k);
      }
    }
  }

  /** A spec that starts with a digit is taken exactly when all of it is octal digits and at most 07777. */
  lemma OctalTaken(s: string)
    requires s != [] && '0' <= s[0] <= '9'
    ensures Parse(s).Ok? <==> (forall i :: 0 <= i < |s| ==> '0' <= s[i] <= '7') && OctalValue(s) <= 0xfff
    ensures (exists i :: 0 <= i < |s| && !('0' <= s[i] <= '7')) ==> Parse(s) == Err(NotOctal)
  {
  }

  /** It gives the twelve bits its digits spell. */
  lemma OctalSpec(s: string, mode: Mode, b: nat)
    requires s != [] && (forall i :: 0 <= i < |s| ==> '0' <= s[i] <= '7') && Parse(s).Ok?
    ensures b in Apply(Parse(s).value, mode) <==> b < 12 && b / 3 < |s| && DigitHas(s[|s| - 1 - b / 3], b % 3)
  {
    OctalBits(s, b / 3, b % 3);
    assert Parse(s) == Ok(Octal(Bits(OctalValue(s)))) && b == 3 * (b / 3) + b % 3;
  }

  lemma {:induction false} NoBits(b: nat)
    ensures !BitOf(0, b)
  {
    if b > 0 {
      NoBits(b - 1);
    }
  }

  lemma HighBits(v: nat, d: nat, b: nat)
    requires d < 8 && b >= 3
    ensures BitOf(8 * v + d, b) <==> BitOf(v, b - 3)
  {
    var n := 8 * v + d;
    assert n / 2 / 2 / 2 == v;
    assert BitOf(n, b) == BitOf(n / 2, b - 1) == BitOf(n / 2 / 2, b - 2) == BitOf(n / 2 / 2 / 2, b - 3);
  }

  lemma LowBits(v: nat, d: nat, b: nat)
    requires d < 8 && b < 3
    ensures BitOf(8 * v + d, b) <==> d in (if b == 0 then {1, 3, 5, 7} else if b == 1 then {2, 3, 6, 7} else {4, 5, 6, 7})
  {
    var n := 8 * v + d;
    if b == 1 {
      assert BitOf(n, 1) == BitOf(n / 2, 0);
    } else if b == 2 {
      assert BitOf(n, 2) == BitOf(n / 2, 1) == BitOf(n / 2 / 2, 0);
    }
  }
}
