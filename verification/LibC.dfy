/** The C library calls the account files are read and written with, on strings without their NUL. */
module LibC {
  import opened Collections

  const ULONG_MAX: nat := 0xffff_ffff

  // ----- strtok -----

  /** How many characters at the start of `s` are delimiters. */
  function Span(s: string, delims: set<char>): (n: nat)
    ensures n <= |s|
  {
    if s == [] || s[0] !in delims then 0 else 1 + Span(s[1..], delims)
  }

  /** How many characters at the start of `s` are not. */
  function CSpan(s: string, delims: set<char>): (n: nat)
    ensures n <= |s|
  {
    if s == [] || s[0] in delims then 0 else 1 + CSpan(s[1..], delims)
  }

  /** The next token of `s`, and where the call after it goes on. */
  function Strtok(s: string, delims: set<char>): (r: (Option<string>, string))
    ensures |r.1| <= |s|
    ensures r.0.Some? ==> |r.1| < |s|
  {
    var t := s[Span(s, delims)..];
    if t == [] then (None, [])
    else
      var n := CSpan(t, delims);
      (Some(t[..n]), if n < |t| then t[n + 1..] else [])
  }

  ghost predicate Free(s: string, delims: set<char>) {
    forall i :: 0 <= i < |s| ==> s[i] !in delims
  }

  lemma {:induction false} CSpanOver(field: string, rest: string, delims: set<char>)
    requires Free(field, delims) && (rest != [] ==> rest[0] in delims)
    ensures CSpan(field + rest, delims) == |field|
  {
    if field == [] {
      assert field + rest == rest;
    } else {
      assert (field + rest)[0] == field[0] && (field + rest)[1..] == field[1..] + rest;
      CSpanOver(field[1..], rest, delims);
    }
  }

  lemma {:induction false} CSpanStops(s: string, delims: set<char>)
    ensures var k := CSpan(s, delims); Free(s[..k], delims) && (k < |s| ==> s[k] in delims)
  {
    if s != [] && s[0] !in delims {
      CSpanStops(s[1..], delims);
      var k := CSpan(s[1..], delims);
      assert s[..k + 1] == [s[0]] + s[1..][..k];
    }
  }

  /** A field followed by a delimiter comes off as a token. */
  lemma StrtokField(field: string, d: char, rest: string, delims: set<char>)
    requires field != [] && Free(field, delims) && d in delims
    ensures Strtok(field + [d] + rest, delims) == (Some(field), rest)
  {
    var s := field + [d] + rest;
    assert s[0] == field[0];
    assert s == field + ([d] + rest);
    CSpanOver(field, [d] + rest, delims);
    assert s[0..] == s;
    assert s[..|field|] == field && s[|field| + 1..] == rest;
  }

  /** The last field of a string is a token too. */
  lemma StrtokLast(field: string, delims: set<char>)
    requires field != [] && Free(field, delims)
    ensures Strtok(field, delims) == (Some(field), [])
  {
    CSpanOver(field, [], delims);
    assert field + [] == field && field[0..] == field && field[..|field|] == field;
  }

  // ----- strtoul, with a 32-bit unsigned long -----

  predicate IsSpace(c: char) {
    c == ' ' || '\t' <= c <= '\r'
  }

  /** The bases the account files are read in. */
  datatype Base = Ten | Sixteen

  function Radix(base: Base): nat {
    if base == Ten then 10 else 16
  }

  function Scaled(v: nat, base: Base): nat {
    if base == Ten then 10 * v else 16 * v
  }

  function DigitValue(c: char): nat {
    if '0' <= c <= '9' then c as int - '0' as int
    else if 'a' <= c <= 'z' then c as int - 'a' as int + 10
    else if 'A' <= c <= 'Z' then c as int - 'A' as int + 10
    else 255
  }

  function SpaceSpan(s: string): (n: nat)
    ensures n <= |s|
  {
    if s == [] || !IsSpace(s[0]) then 0 else 1 + SpaceSpan(s[1..])
  }

  function DigitSpan(s: string, base: Base): (n: nat)
    ensures n <= |s|
  {
    if s == [] || DigitValue(s[0]) >= Radix(base) then 0 else 1 + DigitSpan(s[1..], base)
  }

  function NumberValue(s: string, base: Base): nat {
    if s == [] then 0 else Scaled(NumberValue(s[..|s| - 1], base), base) + DigitValue(s[|s| - 1])
  }

  function Wrap(v: nat, negative: bool): (r: nat)
    ensures r <= ULONG_MAX
  {
    if v > ULONG_MAX then ULONG_MAX else if negative && v > 0 then ULONG_MAX + 1 - v else v
  }

  /** The digits at the start of `s`: their value and how many there are. */
  function Magnitude(s: string, base: Base): (r: (nat, nat))
    ensures r.1 <= |s|
  {
    var n := DigitSpan(s, base);
    (NumberValue(s[..n], base), n)
  }

  /** A number without a sign, with its 0x when the base is 16: value and length, no length when there is none. */
  function Unsigned(s: string, base: Base): (r: (nat, nat))
    ensures r.1 <= |s|
  {
    var skip := if base == Sixteen && |s| >= 2 && s[0] == '0' && (s[1] == 'x' || s[1] == 'X') then 2 else 0;
    var (v, n) := Magnitude(s[skip..], base);
    if n == 0 then (0, 0) else (v, skip + n)
  }

  function WithSign(s: string, base: Base): (r: (nat, nat))
    ensures r.0 <= ULONG_MAX && r.1 <= |s|
  {
    var skip := if s != [] && (s[0] == '+' || s[0] == '-') then 1 else 0;
    var (v, n) := Unsigned(s[skip..], base);
    if n == 0 then (0, 0) else (Wrap(v, s[0] == '-'), skip + n)
  }

  /** The value and how many characters it took; none when there is no number. */
  function Strtoul(s: string, base: Base): (r: (nat, nat))
    ensures r.0 <= ULONG_MAX && r.1 <= |s|
  {
    var skip := SpaceSpan(s);
    var (v, n) := WithSign(s[skip..], base);
    if n == 0 then (0, 0) else (v, skip + n)
  }

  ghost predicate Digits(s: string, base: Base) {
    forall i :: 0 <= i < |s| ==> DigitValue(s[i]) < Radix(base) && s[i] != '+' && s[i] != '-' && !IsSpace(s[i])
  }

  lemma {:induction false} DigitSpanOver(s: string, base: Base)
    requires Digits(s, base)
    ensures DigitSpan(s, base) == |s|
  {
    if s != [] {
      DigitSpanOver(s[1..], base);
    }
  }

  lemma MagnitudePlain(s: string, base: Base)
    requires Digits(s, base)
    ensures Magnitude(s, base) == (NumberValue(s, base), |s|)
  {
    DigitSpanOver(s, base);
    assert s[..|s|] == s;
  }

  ghost predicate HasPrefix(s: string) {
    |s| >= 2 && s[0] == '0' && (s[1] == 'x' || s[1] == 'X')
  }

  lemma UnsignedPlain(s: string, base: Base)
    requires s != [] && Digits(s, base) && (base == Sixteen ==> !HasPrefix(s))
    ensures Unsigned(s, base) == (NumberValue(s, base), |s|)
  {
    MagnitudePlain(s, base);
    assert s[0..] == s;
  }

  lemma WithSignPlain(s: string, base: Base)
    requires s != [] && Digits(s, base) && (base == Sixteen ==> !HasPrefix(s)) && NumberValue(s, base) <= ULONG_MAX
    ensures WithSign(s, base) == (NumberValue(s, base), |s|)
  {
    UnsignedPlain(s, base);
    assert s[0..] == s;
  }

  /** A plain number is read whole. */
  lemma StrtoulPlain(s: string, base: Base)
    requires s != [] && Digits(s, base) && (base == Sixteen ==> !HasPrefix(s)) && NumberValue(s, base) <= ULONG_MAX
    ensures Strtoul(s, base) == (NumberValue(s, base), |s|)
  {
    WithSignPlain(s, base);
    assert s[0..] == s;
  }

  // ----- printf's %u -----

  function DigitChar(d: nat): char
    requires d < 16
  {
    if d < 10 then ('0' as int + d) as char else ('a' as int + (d - 10)) as char
  }

  function Decimal(n: nat): (s: string)
    ensures s != []
  {
    if n < 10 then [DigitChar(n)] else Decimal(n / 10) + [DigitChar(n % 10)]
  }

  lemma DigitReadsBack(d: nat)
    requires d < 16
    ensures DigitValue(DigitChar(d)) == d
    ensures Digits([DigitChar(d)], Sixteen) && (d < 10 ==> Digits([DigitChar(d)], Ten))
  {
  }

  lemma {:induction false} DecimalReadsBack(n: nat)
    ensures Digits(Decimal(n), Ten)
    ensures NumberValue(Decimal(n), Ten) == n
  {
    var s := Decimal(n);
    DigitReadsBack(n % 10);
    if n < 10 {
      assert s == [DigitChar(n % 10)];
      assert NumberValue(s[..|s| - 1], Ten) == 0;
    } else {
      DecimalReadsBack(n / 10);
      assert s[..|s| - 1] == Decimal(n / 10);
    }
  }

  function Pow10(k: nat): nat {
    if k == 0 then 1 else 10 * Pow10(k - 1)
  }

  lemma {:induction false} DecimalLength(n: nat, k: nat)
    requires k >= 1 && n < Pow10(k)
    ensures |Decimal(n)| <= k
  {
    if n >= 10 {
      assert k >= 2;
      DecimalLength(n / 10, k - 1);
    }
  }

  // ----- fgets -----

  function FirstLf(s: string): (k: nat)
    ensures k <= |s|
  {
    if s == [] || s[0] == '\n' then 0 else 1 + FirstLf(s[1..])
  }

  /** One line of a file with its newline, or as much of it as fits the buffer. */
  function Fgets(file: string, size: nat): (r: (string, string))
    requires size >= 2
    ensures file == r.0 + r.1
    ensures file != [] ==> r.0 != []
    ensures |r.0| < size
  {
    var k := FirstLf(file);
    var n := if k < |file| then k + 1 else k;
    var m := if n > size - 1 then size - 1 else n;
    (file[..m], file[m..])
  }

  lemma {:induction false} FirstLfOver(line: string, rest: string)
    requires Free(line, {'\n'})
    ensures FirstLf(line + ['\n'] + rest) == |line|
  {
    var s := line + ['\n'] + rest;
    if line == [] {
      assert s[0] == '\n';
    } else {
      assert s[0] == line[0] && s[1..] == line[1..] + ['\n'] + rest;
      FirstLfOver(line[1..], rest);
    }
  }

  /** A line that fits the buffer comes whole. */
  lemma FgetsLine(line: string, rest: string, size: nat)
    requires Free(line, {'\n'}) && |line| + 1 < size
    ensures Fgets(line + ['\n'] + rest, size) == (line + ['\n'], rest)
  {
    FirstLfOver(line, rest);
    var s := line + ['\n'] + rest;
    assert s[..|line| + 1] == line + ['\n'] && s[|line| + 1..] == rest;
  }
}
