/**
 The scanner that blanks out comments of C source and keeps everything else where it
 is, so that offsets and line numbers stay true.
 */
module CommentStrip {
  import opened Collections

  datatype Token = Code(c: char) | Literal(text: string) | Comment(text: string)

  datatype List<T> = Nil | Cons(head: T, tail: List<T>)

  function Source(t: Token): string {
    match t
    case Code(c) => [c]
    case Literal(s) => s
    case Comment(s) => s
  }

  function BlankChar(c: char): char {
    if c == '\n' then '\n' else ' '
  }

  function Blank(s: string): (r: string)
    ensures |r| == |s|
  {
    if s == [] then [] else [BlankChar(s[0])] + Blank(s[1..])
  }

  lemma {:induction false} BlankAt(s: string, i: nat)
    requires i < |s|
    ensures Blank(s)[i] == BlankChar(s[i])
  {
    if i > 0 {
      BlankAt(s[1..], i - 1);
    }
  }

  lemma {:induction false} BlankAppend(s: string, t: string)
    ensures Blank(s + t) == Blank(s) + Blank(t)
  {
    if s == [] {
      assert s + t == t;
    } else {
      BlankAppend(s[1..], t);
      assert (s + t)[0] == s[0] && (s + t)[1..] == s[1..] + t;
      Associates([BlankChar(s[0])], Blank(s[1..]), Blank(t));
    }
  }

  /** A comment becomes spaces, its newlines kept; everything else is itself. */
  function Render(t: Token): (r: string)
    ensures |r| == |Source(t)|
  {
    if t.Comment? then Blank(t.text) else Source(t)
  }

  /** As long, newlines where they were, and every other character itself or a space. */
  ghost predicate InPlace(s: string, r: string) {
    |r| == |s| && forall i :: 0 <= i < |s| ==> (r[i] == '\n' <==> s[i] == '\n') && (r[i] == s[i] || r[i] == ' ')
  }

  lemma InPlaceAppend(s: string, r: string, t: string, q: string)
    requires InPlace(s, r) && InPlace(t, q)
    ensures InPlace(s + t, r + q)
  {
  }

  lemma RenderMovesNothing(t: Token)
    ensures InPlace(Source(t), Render(t))
  {
    if t.Comment? {
      forall i | 0 <= i < |t.text| ensures Blank(t.text)[i] == BlankChar(t.text[i]) {
        BlankAt(t.text, i);
      }
    }
  }

  // ----- Stripping by any lexer -----

  /** `r` may stand where `tail` stood: as long as it goes on, it goes on alike or with a space. */
  ghost predicate Stands(tail: string, r: string) {
    (tail == [] <==> r == []) && (tail != [] ==> r[0] == tail[0] || r[0] == ' ')
  }

  /** A lexer names the first token of a text that is not empty. */
  datatype Lexer = Lexer(first: string -> Token) {
    ghost predicate Sound() {
      forall s: string :: s != [] ==>
        1 <= |Source(first(s))| <= |s| && Source(first(s)) == s[..|Source(first(s))|]
    }

    ghost predicate BlankIsCode() {
      forall s: string :: s != [] && (s[0] == ' ' || s[0] == '\n') ==> first(s) == Code(s[0])
    }

    /** A token that is no comment survives what its tail may become. */
    ghost predicate Steady() {
      forall s: string, r: string {:trigger first(Source(first(s)) + r)} ::
        s != [] && !first(s).Comment? && |Source(first(s))| <= |s| && Stands(s[|Source(first(s))|..], r) ==>
        first(Source(first(s)) + r) == first(s)
    }

    ghost function Tokens(s: string): List<Token>
      requires Sound()
      decreases |s|
    {
      if s == [] then Nil else Cons(first(s), Tokens(s[|Source(first(s))|..]))
    }

    ghost function Strip(s: string): string
      requires Sound()
      decreases |s|
    {
      if s == [] then [] else Render(first(s)) + Strip(s[|Source(first(s))|..])
    }

    lemma {:induction false} NothingMoves(s: string)
      requires Sound()
      ensures InPlace(s, Strip(s))
      decreases |s|
    {
      if s != [] {
        var t := first(s);
        var n := |Source(t)|;
        NothingMoves(s[n..]);
        RenderMovesNothing(t);
        InPlaceAppend(Source(t), Render(t), s[n..], Strip(s[n..]));
        assert s == Source(t) + s[n..];
      }
    }

    lemma {:induction false} BlanksAreCode(b: string, r: string)
      requires Sound() && BlankIsCode()
      requires forall i :: 0 <= i < |b| ==> b[i] == ' ' || b[i] == '\n'
      ensures Tokens(b + r) == PlainThen(b, Tokens(r))
    {
      if b == [] {
        assert b + r == r;
      } else {
        BlanksAreCode(b[1..], r);
        assert (b + r)[0] == b[0] && (b + r)[1..] == b[1..] + r;
        assert first(b + r) == Code(b[0]);
      }
    }

    /** The stripped text has the same tokens, its comments turned into white space. */
    lemma {:induction false} StrippedTokens(s: string)
      requires Sound() && BlankIsCode() && Steady()
      ensures Tokens(Strip(s)) == CleanedAll(Tokens(s))
      decreases |s|
    {
      if s != [] {
        var t := first(s);
        var tail := s[|Source(t)|..];
        var r := Strip(tail);
        StrippedTokens(tail);
        if t.Comment? {
          forall i | 0 <= i < |t.text| ensures Blank(t.text)[i] == BlankChar(t.text[i]) {
            BlankAt(t.text, i);
          }
          BlanksAreCode(Render(t), r);
        } else {
          NothingMoves(tail);
          assert first(Source(t) + r) == t;
          assert (Source(t) + r)[|Source(t)|..] == r;
        }
      }
    }

    /** A rendered token carries the stripped text one token further. */
    lemma StripStep(text: string, start: nat, i: nat, out: string)
      requires Sound() && start < |text|
      requires i == start + |Source(first(text[start..]))| && i <= |text|
      ensures (out + Render(first(text[start..]))) + Strip(text[i..]) == out + Strip(text[start..])
    {
      var s := text[start..];
      assert s[i - start..] == text[i..];
      Associates(out, Render(first(s)), Strip(text[i..]));
    }

    lemma {:induction false} StripRendersTokens(s: string)
      requires Sound()
      ensures Strip(s) == RenderAll(Tokens(s))
      decreases |s|
    {
      if s != [] {
        StripRendersTokens(s[|Source(first(s))|..]);
      }
    }
  }

  /** The characters of `s` as they stand, one token each, and then `ts`. */
  function PlainThen(s: string, ts: List<Token>): List<Token> {
    if s == [] then ts else Cons(Code(s[0]), PlainThen(s[1..], ts))
  }

  function CleanedAll(ts: List<Token>): List<Token> {
    match ts
    case Nil => Nil
    case Cons(t, rest) =>
      if t.Comment? then PlainThen(Blank(t.text), CleanedAll(rest)) else Cons(t, CleanedAll(rest))
  }

  function RenderAll(ts: List<Token>): string {
    match ts
    case Nil => []
    case Cons(t, rest) => Render(t) + RenderAll(rest)
  }

  // ----- What that says of comments and literals -----

  predicate CommentFree(ts: List<Token>) {
    ts.Nil? || (!ts.head.Comment? && CommentFree(ts.tail))
  }

  /** The literals of a text with their offsets. */
  function Literals(ts: List<Token>, at: nat): List<(nat, string)> {
    match ts
    case Nil => Nil
    case Cons(t, rest) =>
      var more := Literals(rest, at + |Source(t)|);
      if t.Literal? then Cons((at, t.text), more) else more
  }

  lemma {:induction false} PlainHasNoLiterals(s: string, ts: List<Token>, at: nat)
    ensures Literals(PlainThen(s, ts), at) == Literals(ts, at + |s|)
    ensures CommentFree(PlainThen(s, ts)) == CommentFree(ts)
  {
    if s != [] {
      PlainHasNoLiterals(s[1..], ts, at + 1);
    }
  }

  lemma {:induction false} PlainRenders(s: string, ts: List<Token>)
    ensures RenderAll(PlainThen(s, ts)) == s + RenderAll(ts)
  {
    if s != [] {
      PlainRenders(s[1..], ts);
      assert [s[0]] + s[1..] == s;
      Associates([s[0]], s[1..], RenderAll(ts));
    }
  }

  lemma {:induction false} CleaningKeepsLiterals(ts: List<Token>, at: nat)
    ensures CommentFree(CleanedAll(ts))
    ensures Literals(CleanedAll(ts), at) == Literals(ts, at)
    ensures RenderAll(CleanedAll(ts)) == RenderAll(ts)
  {
    match ts
    case Nil =>
    case Cons(t, rest) =>
      CleaningKeepsLiterals(rest, at + |Source(t)|);
      if t.Comment? {
        PlainHasNoLiterals(Blank(t.text), CleanedAll(rest), at);
        PlainRenders(Blank(t.text), CleanedAll(rest));
      }
  }

  // ----- The lexer of check-abi -----

  predicate IsQuote(c: char) {
    c == '"' || c == '\''
  }

  /** How much of `s` belongs to a literal opened by `quote` just before it. */
  function LiteralRest(s: string, quote: char): (n: nat)
    ensures n <= |s|
  {
    if s == [] then 0
    else if s[0] == '\\' && |s| >= 2 then 2 + LiteralRest(s[2..], quote)
    else if s[0] == quote || s[0] == '\n' then 1
    else 1 + LiteralRest(s[1..], quote)
  }

  function LineRest(s: string): (n: nat)
    ensures n <= |s|
  {
    if s == [] || s[0] == '\n' then 0 else 1 + LineRest(s[1..])
  }

  /** How much of `s` belongs to a block comment opened just before it. */
  function BlockRest(s: string): (n: nat)
    ensures n <= |s|
  {
    if s == [] then 0
    else if s[0] == '*' && |s| >= 2 && s[1] == '/' then 2
    else 1 + BlockRest(s[1..])
  }

  predicate OpensLine(s: string) {
    |s| >= 2 && s[0] == '/' && s[1] == '/'
  }

  predicate OpensBlock(s: string) {
    |s| >= 2 && s[0] == '/' && s[1] == '*'
  }

  function First(s: string): Token {
    if s == [] then Code(' ')
    else if IsQuote(s[0]) then Literal(s[..1 + LiteralRest(s[1..], s[0])])
    else if OpensLine(s) then Comment(s[..1 + LineRest(s[1..])])
    else if OpensBlock(s) then Comment(s[..2 + BlockRest(s[2..])])
    else Code(s[0])
  }

  /** A token by its first characters: a quote opens a literal, two slashes or a slash and a star a comment. */
  lemma TokenKind(s: string)
    requires s != []
    ensures First(s).Literal? <==> s[0] == '"' || s[0] == '\''
    ensures First(s).Comment? <==> s[0] == '/' && |s| >= 2 && (s[1] == '/' || s[1] == '*')
    ensures First(s).Code? ==> First(s).c == s[0]
  {
  }

  /** A line comment goes up to the first newline, which is not part of it. */
  lemma {:induction false} LineEndsFirst(s: string)
    ensures '\n' !in s[..LineRest(s)]
    ensures LineRest(s) < |s| ==> s[LineRest(s)] == '\n'
  {
    if s != [] && s[0] != '\n' {
      LineEndsFirst(s[1..]);
      assert s[..LineRest(s)] == [s[0]] + s[1..][..LineRest(s[1..])];
    }
  }

  predicate StarSlash(s: string, i: nat) {
    i + 1 < |s| && s[i] == '*' && s[i + 1] == '/'
  }

  /** A block comment goes up to and over the first star and slash, or to the end of the text if there is none. */
  lemma {:induction false} BlockEndsFirst(s: string, i: nat)
    ensures i + 2 < BlockRest(s) ==> !StarSlash(s, i)
    ensures BlockRest(s) < |s| ==> BlockRest(s) >= 2 && StarSlash(s, BlockRest(s) - 2)
    ensures StarSlash(s, i) ==> BlockRest(s) <= i + 2
    decreases |s|
  {
    if s != [] && !StarSlash(s, 0) {
      BlockEndsFirst(s[1..], if i == 0 then 0 else i - 1);
      assert i > 0 ==> (StarSlash(s, i) <==> StarSlash(s[1..], i - 1));
    }
  }

  /** How many backslashes stand directly before place `i`. */
  function Slashes(s: string, i: nat): nat
    requires i <= |s|
  {
    if i == 0 || s[i - 1] != '\\' then 0 else 1 + Slashes(s, i - 1)
  }

  /** The backslashes before a place, seen from `k` characters further on. */
  lemma {:induction false} SlashesFrom(s: string, k: nat, i: nat)
    requires k <= i <= |s|
    ensures Slashes(s, i) == Slashes(s[k..], i - k) + if Slashes(s[k..], i - k) == i - k then Slashes(s, k) else 0
    ensures Slashes(s[k..], i - k) <= i - k
  {
    if i > k {
      SlashesFrom(s, k, i - 1);
      assert s[k..][i - k - 1] == s[i - 1];
    }
  }

  /** A place that can end a literal, were it not for a backslash that takes its meaning away. */
  predicate Ends(s: string, quote: char, i: nat) {
    i < |s| && (s[i] == quote || s[i] == '\n')
  }

  /**
   A literal goes up to and over the first quote or newline that an even number of backslashes
   stands before, or to the end of the text if there is none.
   */
  lemma {:induction false} LiteralEndsFirst(s: string, quote: char, i: nat)
    requires quote != '\\'
    ensures var n := LiteralRest(s, quote);
            && (i + 1 < n && Ends(s, quote, i) ==> Slashes(s, i) % 2 == 1)
            && (n < |s| ==> n >= 1 && Ends(s, quote, n - 1) && Slashes(s, n - 1) % 2 == 0)
    decreases |s|
  {
    if s != [] && !Ends(s, quote, 0) {
      var k := if s[0] == '\\' && |s| >= 2 then 2 else 1;
      var m := LiteralRest(s[k..], quote);
      LiteralEndsFirst(s[k..], quote, if i < k then 0 else i - k);
      EvenSkip(s, k);
      if k <= i < |s| {
        SameParity(s, k, i);
      }
      if k + m < |s| {
        SameParity(s, k, k + m - 1);
      }
    }
  }

  /** The parity before a place is the same seen from behind an escape or a plain character. */
  lemma SameParity(s: string, k: nat, i: nat)
    requires k <= i < |s| && Slashes(s, k) % 2 == 0
    ensures Slashes(s[k..], i - k) % 2 == Slashes(s, i) % 2
  {
    SlashesFrom(s, k, i);
  }

  /** Two characters that start with a backslash leave the count even; one that is none leaves it zero. */
  lemma EvenSkip(s: string, k: nat)
    requires s != [] && k == (if s[0] == '\\' && |s| >= 2 then 2 else 1)
    ensures k < |s| ==> Slashes(s, k) % 2 == 0
    ensures k == 2 ==> Slashes(s, 1) == 1
  {
    assert k == 2 ==> Slashes(s, 1) == 1 + Slashes(s, 0);
  }

  const SCANNER := Lexer(s => First(s))

  lemma {:induction false} LiteralKept(s: string, quote: char, r: string)
    requires quote != '\\'
    requires LiteralRest(s, quote) == |s| ==> r == []
    ensures LiteralRest(s[..LiteralRest(s, quote)] + r, quote) == LiteralRest(s, quote)
  {
    var n := LiteralRest(s, quote);
    var kept := s[..n] + r;
    if s == [] {
      assert kept == [];
    } else if s[0] == '\\' && |s| >= 2 {
      LiteralKept(s[2..], quote, r);
      assert kept[2..] == s[2..][..n - 2] + r;
    } else if s[0] == quote || s[0] == '\n' {
      assert kept[0] == s[0];
    } else {
      LiteralKept(s[1..], quote, r);
      assert kept[1..] == s[1..][..n - 1] + r;
    }
  }

  lemma FirstKept(s: string, r: string)
    requires s != [] && !First(s).Comment? && Stands(s[|Source(First(s))|..], r)
    ensures First(Source(First(s)) + r) == First(s)
  {
    var t := First(s);
    var kept := Source(t) + r;
    if IsQuote(s[0]) {
      var n := LiteralRest(s[1..], s[0]);
      LiteralKept(s[1..], s[0], r);
      assert kept[1..] == s[1..][..n] + r;
      assert kept[..1 + n] == t.text;
    } else {
      assert kept[0] == s[0];
      assert |kept| >= 2 ==> kept[1] == r[0];
    }
  }

  lemma ScannerIsSteady()
    ensures SCANNER.Sound() && SCANNER.BlankIsCode() && SCANNER.Steady()
  {
    forall s: string, r: string | s != [] && !First(s).Comment? && Stands(s[|Source(First(s))|..], r)
      ensures First(Source(First(s)) + r) == First(s)
    {
      FirstKept(s, r);
    }
  }

  // ----- The code -----

  /** Where a literal that is open at `i` ends. */
  function LiteralEnd(text: string, i: nat, quote: char): (n: nat)
    requires i <= |text|
    ensures i <= n <= |text|
    decreases |text| - i
  {
    if i == |text| then i
    else if text[i] == '\\' && i + 1 < |text| then LiteralEnd(text, i + 2, quote)
    else if text[i] == quote || text[i] == '\n' then i + 1
    else LiteralEnd(text, i + 1, quote)
  }

  lemma {:induction false} LiteralEnds(text: string, i: nat, quote: char)
    requires i <= |text|
    ensures LiteralEnd(text, i, quote) == i + LiteralRest(text[i..], quote)
    decreases |text| - i
  {
    if i < |text| {
      var s := text[i..];
      LiteralEnds(text, i + 1, quote);
      assert s[0] == text[i] && s[1..] == text[i + 1..];
      if i + 1 < |text| {
        LiteralEnds(text, i + 2, quote);
        assert s[2..] == text[i + 2..];
      }
    }
  }

  lemma SliceMore(text: string, start: nat, i: nat)
    requires start <= i < |text|
    ensures text[start..i] + [text[i]] == text[start..i + 1]
  {
  }

  method CopyLiteral(text: string, start: nat) returns (piece: string, i: nat)
    requires start < |text| && IsQuote(text[start])
    ensures i == start + 1 + LiteralRest(text[start + 1..], text[start])
    ensures i <= |text| && piece == text[start..i]
  {
    var quote := text[start];
    piece, i := [quote], start + 1;
    LiteralEnds(text, i, quote);
    while i < |text|
      invariant start < i <= |text|
      invariant piece == text[start..i]
      invariant LiteralEnd(text, start + 1, quote) == LiteralEnd(text, i, quote)
    {
      if text[i] == '\\' && i + 1 < |text| {
        SliceMore(text, start, i);
        SliceMore(text, start, i + 1);
        piece := piece + [text[i]] + [text[i + 1]];
        i := i + 2;
        continue;
      }
      SliceMore(text, start, i);
      piece := piece + [text[i]];
      if text[i] == quote {
        i := i + 1;
        return;
      }
      if text[i] == '\n' {
        i := i + 1;
        return;
      }
      i := i + 1;
    }
  }

  /** One more character of a comment. */
  lemma BlankMore(text: string, start: nat, i: nat)
    requires start <= i < |text|
    ensures Blank(text[start..i + 1]) == Blank(text[start..i]) + [BlankChar(text[i])]
  {
    assert text[start..i + 1] == text[start..i] + [text[i]];
    BlankAppend(text[start..i], [text[i]]);
    assert Blank([text[i]]) == [BlankChar(text[i])] + Blank([text[i]][1..]);
  }

  /** The two characters of an opener or an end. */
  lemma BlankTwo(text: string, start: nat, i: nat)
    requires start <= i && i + 1 < |text| && text[i] != '\n' && text[i + 1] != '\n'
    ensures Blank(text[start..i + 2]) == Blank(text[start..i]) + "  "
  {
    BlankMore(text, start, i);
    BlankMore(text, start, i + 1);
  }

  lemma BlankJoin(text: string, a: nat, b: nat, c: nat)
    requires a <= b <= c <= |text|
    ensures Blank(text[a..c]) == Blank(text[a..b]) + Blank(text[b..c])
  {
    assert text[a..c] == text[a..b] + text[b..c];
    BlankAppend(text[a..b], text[b..c]);
  }

  method BlankLine(text: string, start: nat) returns (piece: string, i: nat)
    requires start < |text| && text[start] != '\n'
    ensures i == start + 1 + LineRest(text[start + 1..])
    ensures i <= |text| && piece == Blank(text[start..i])
  {
    piece, i := [], start;
    assert text[start..][1..] == text[start + 1..];
    assert LineRest(text[start..]) == 1 + LineRest(text[start + 1..]);
    while i < |text| && text[i] != '\n'
      invariant start <= i <= |text|
      invariant piece == Blank(text[start..i])
      invariant start + LineRest(text[start..]) == i + LineRest(text[i..])
    {
      assert text[i..][0] == text[i] && text[i..][1..] == text[i + 1..];
      BlankMore(text, start, i);
      piece := piece + [' '];
      i := i + 1;
    }
    assert i < |text| ==> text[i..][0] == text[i];
  }

  /** The inside of a block comment, up to its end or the text's. */
  method BlankInside(text: string, from: nat) returns (piece: string, i: nat)
    requires from <= |text|
    ensures from <= i <= |text| && piece == Blank(text[from..i])
    ensures from + BlockRest(text[from..]) == if i < |text| then i + 2 else i
    ensures i < |text| ==> i + 1 < |text| && text[i] == '*' && text[i + 1] == '/'
  {
    piece, i := [], from;
    while i < |text| && !(text[i] == '*' && i + 1 < |text| && text[i + 1] == '/')
      invariant from <= i <= |text|
      invariant piece == Blank(text[from..i])
      invariant from + BlockRest(text[from..]) == i + BlockRest(text[i..])
    {
      assert text[i..][0] == text[i] && text[i..][1..] == text[i + 1..];
      assert i + 1 < |text| ==> text[i..][1] == text[i + 1];
      BlankMore(text, from, i);
      piece := piece + [if text[i] == '\n' then '\n' else ' '];
      i := i + 1;
    }
    if i < |text| {
      assert text[i..][0] == text[i] && text[i..][1] == text[i + 1];
    }
  }

  method BlankBlock(text: string, start: nat) returns (piece: string, i: nat)
    requires start + 1 < |text| && text[start] == '/' && text[start + 1] == '*'
    ensures i == start + 2 + BlockRest(text[start + 2..])
    ensures i <= |text| && piece == Blank(text[start..i])
  {
    piece, i := BlankInside(text, start + 2);
    piece := "  " + piece;
    BlankTwo(text, start, start);
    BlankJoin(text, start, start + 2, i);
    if i < |text| {
      BlankTwo(text, start, i);
      piece := piece + "  ";
      i := i + 2;
    }
  }

  lemma SliceOf(text: string, start: nat, i: nat)
    requires start <= i <= |text|
    ensures text[start..i] == text[start..][..i - start]
  {
  }

  lemma LiteralAt(text: string, start: nat, i: nat)
    requires start < |text| && IsQuote(text[start])
    requires i == start + 1 + LiteralRest(text[start + 1..], text[start]) && i <= |text|
    ensures First(text[start..]) == Literal(text[start..i])
  {
    assert text[start..][1..] == text[start + 1..];
    SliceOf(text, start, i);
  }

  lemma LineAt(text: string, start: nat, i: nat)
    requires start + 1 < |text| && text[start] == '/' && text[start + 1] == '/'
    requires i == start + 1 + LineRest(text[start + 1..]) && i <= |text|
    ensures First(text[start..]) == Comment(text[start..i])
  {
    assert text[start..][1..] == text[start + 1..];
    SliceOf(text, start, i);
  }

  lemma BlockAt(text: string, start: nat, i: nat)
    requires start + 1 < |text| && text[start] == '/' && text[start + 1] == '*'
    requires i == start + 2 + BlockRest(text[start + 2..]) && i <= |text|
    ensures First(text[start..]) == Comment(text[start..i])
  {
    assert text[start..][2..] == text[start + 2..];
    SliceOf(text, start, i);
  }

  /** One token of the text, rendered behind `out`. */
  method ScanToken(text: string, start: nat, out: string) returns (out': string, i: nat)
    requires start < |text|
    ensures i == start + |Source(First(text[start..]))| && start < i <= |text|
    ensures out' == out + Render(First(text[start..]))
  {
    var piece;
    if IsQuote(text[start]) {
      piece, i := CopyLiteral(text, start);
      LiteralAt(text, start, i);
    } else if text[start] == '/' && start + 1 < |text| && text[start + 1] == '/' {
      piece, i := BlankLine(text, start);
      LineAt(text, start, i);
    } else if text[start] == '/' && start + 1 < |text| && text[start + 1] == '*' {
      piece, i := BlankBlock(text, start);
      BlockAt(text, start, i);
    } else {
      piece, i := [text[start]], start + 1;
    }
    out' := out + piece;
  }

  method StripToken(text: string, start: nat, out: string) returns (out': string, i: nat)
    requires SCANNER.Sound() && start < |text|
    ensures start < i <= |text|
    ensures out' + SCANNER.Strip(text[i..]) == out + SCANNER.Strip(text[start..])
  {
    out', i := ScanToken(text, start, out);
    assert SCANNER.first(text[start..]) == First(text[start..]);
    SCANNER.StripStep(text, start, i, out);
  }

  method StripComments(text: string) returns (out: string)
    ensures SCANNER.Sound()
    ensures out == SCANNER.Strip(text)
  {
    ScannerIsSteady();
    out := [];
    var i := 0;
    assert text[0..] == text;
    while i < |text|
      invariant 0 <= i <= |text| && SCANNER.Sound()
      invariant out + SCANNER.Strip(text[i..]) == SCANNER.Strip(text)
    {
      out, i := StripToken(text, i, out);
    }
    assert text[i..] == [];
  }

  // ----- What check-abi relies on -----

  /** Length, newlines and every character outside comments stay. */
  lemma StripKeepsPlaces(text: string)
    ensures SCANNER.Sound()
    ensures var out := SCANNER.Strip(text);
            && |out| == |text|
            && (forall i :: 0 <= i < |text| ==> (out[i] == '\n' <==> text[i] == '\n'))
            && (forall i :: 0 <= i < |text| ==> out[i] == text[i] || out[i] == ' ')
  {
    ScannerIsSteady();
    SCANNER.NothingMoves(text);
  }

  /** No comment opener is left outside a literal, and each literal stands verbatim where it stood. */
  lemma StripLeavesLiterals(text: string)
    ensures SCANNER.Sound()
    ensures var out := SCANNER.Strip(text);
            && CommentFree(SCANNER.Tokens(out))
            && Literals(SCANNER.Tokens(out), 0) == Literals(SCANNER.Tokens(text), 0)
  {
    ScannerIsSteady();
    SCANNER.StrippedTokens(text);
    CleaningKeepsLiterals(SCANNER.Tokens(text), 0);
  }

  /** Stripping twice is stripping once. */
  lemma StripIsIdempotent(text: string)
    ensures SCANNER.Sound()
    ensures SCANNER.Strip(SCANNER.Strip(text)) == SCANNER.Strip(text)
  {
    ScannerIsSteady();
    StripTwice(SCANNER, text);
  }

  lemma StripTwice(lex: Lexer, text: string)
    requires lex.Sound() && lex.BlankIsCode() && lex.Steady()
    ensures lex.Strip(lex.Strip(text)) == lex.Strip(text)
  {
    lex.StrippedTokens(text);
    CleaningKeepsLiterals(lex.Tokens(text), 0);
    lex.StripRendersTokens(text);
    lex.StripRendersTokens(lex.Strip(text));
  }
}
