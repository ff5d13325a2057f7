/** The wildcard of /etc/fstab's device column: `*` stands for any run of characters. */
module FstabGlob {

  /** The pattern language. */
  ghost predicate Matches(pat: string, name: string)
    decreases |pat|
  {
    if pat == [] then name == []
    else if pat[0] == '*' then exists k :: 0 <= k <= |name| && Matches(pat[1..], name[k..])
    else name != [] && pat[0] == name[0] && Matches(pat[1..], name[1..])
  }

  /** What the matcher answers: a star that is not the last character needs something left to match. */
  ghost predicate Accepts(pat: string, name: string)
    decreases |pat|
  {
    if pat == [] then name == []
    else if pat[0] == '*' then
      |pat| == 1 || exists k :: 0 <= k < |name| && Accepts(pat[1..], name[k..])
    else name != [] && pat[0] == name[0] && Accepts(pat[1..], name[1..])
  }

  /** Two pointers walk; a star tries the rest of the pattern at every place of the name. */
  method Glob(pat: string, name: string) returns (r: bool)
    ensures r == Accepts(pat, name)
    decreases |pat|
  {
    var p, n := 0, 0;
    assert pat[0..] == pat && name[0..] == name;
    while p < |pat|
      invariant 0 <= p <= |pat| && 0 <= n <= |name|
      invariant Accepts(pat, name) == Accepts(pat[p..], name[n..])
    {
      assert pat[p..][0] == pat[p] && pat[p..][1..] == pat[p + 1..];
      if pat[p] == '*' {
        p := p + 1;
        if p == |pat| {
          return true;
        }
        var rest, at := name[n..], 0;
        while at < |rest|
          invariant 0 <= at <= |rest|
          invariant forall k :: 0 <= k < at ==> !Accepts(pat[p..], rest[k..])
        {
          var here := Glob(pat[p..], rest[at..]);
          if here {
            return true;
          }
          at := at + 1;
        }
        return false;
      }
      if n == |name| || pat[p] != name[n] {
        return false;
      }
      assert name[n..][0] == name[n] && name[n..][1..] == name[n + 1..];
      p, n := p + 1, n + 1;
    }
    assert pat[p..] == [];
    return n == |name|;
  }

  predicate EndsInTwoStars(pat: string) {
    |pat| >= 2 && pat[|pat| - 1] == '*' && pat[|pat| - 2] == '*'
  }

  // ----- Every other pattern means its language -----

  lemma {:induction false} MatchesNothing(pat: string)
    requires Matches(pat, [])
    ensures forall i :: 0 <= i < |pat| ==> pat[i] == '*'
    decreases |pat|
  {
    if pat != [] {
      var k :| 0 <= k <= 0 && Matches(pat[1..], ""[k..]);
      MatchesNothing(pat[1..]);
      assert forall i :: 1 <= i < |pat| ==> pat[i] == pat[1..][i - 1];
    }
  }

  lemma {:induction false} AcceptedIsMatched(pat: string, name: string)
    requires Accepts(pat, name)
    ensures Matches(pat, name)
    decreases |pat|
  {
    if pat == [] {
    } else if pat[0] == '*' {
      if |pat| == 1 {
        assert name[|name|..] == [] && pat[1..] == [];
        assert Matches(pat[1..], name[|name|..]);
      } else {
        var k :| 0 <= k < |name| && Accepts(pat[1..], name[k..]);
        AcceptedIsMatched(pat[1..], name[k..]);
      }
    } else {
      AcceptedIsMatched(pat[1..], name[1..]);
    }
  }

  lemma {:induction false} MatchedIsAccepted(pat: string, name: string)
    requires Matches(pat, name) && !EndsInTwoStars(pat)
    ensures Accepts(pat, name)
    decreases |pat|
  {
    if pat == [] {
    } else {
      var rest := pat[1..];
      assert forall i :: 0 <= i < |rest| ==> rest[i] == pat[i + 1];
      if pat[0] != '*' {
        MatchedIsAccepted(rest, name[1..]);
      } else if |pat| > 1 {
        var k :| 0 <= k <= |name| && Matches(rest, name[k..]);
        if k == |name| {
          MatchesNothing(rest);
        } else {
          MatchedIsAccepted(rest, name[k..]);
        }
      }
    }
  }

  // ----- A pattern ending in two stars misses a name of its language -----

  /** The pattern without its stars: the shortest name of its language. */
  function Shortest(pat: string): string {
    if pat == [] then []
    else if pat[0] == '*' then Shortest(pat[1..])
    else [pat[0]] + Shortest(pat[1..])
  }

  lemma {:induction false} ShortestMatches(pat: string)
    ensures Matches(pat, Shortest(pat))
  {
    if pat != [] {
      ShortestMatches(pat[1..]);
      if pat[0] == '*' {
        assert Shortest(pat)[0..] == Shortest(pat[1..]);
      } else {
        assert Shortest(pat)[1..] == Shortest(pat[1..]);
      }
    }
  }

  lemma {:induction false} AcceptedIsLong(pat: string, name: string)
    requires Accepts(pat, name)
    ensures |name| >= |Shortest(pat)|
    ensures EndsInTwoStars(pat) ==> |name| > |Shortest(pat)|
    decreases |pat|
  {
    if pat != [] {
      var rest := pat[1..];
      assert forall i :: 0 <= i < |rest| ==> rest[i] == pat[i + 1];
      if pat[0] != '*' {
        AcceptedIsLong(rest, name[1..]);
      } else if |pat| > 1 {
        var k :| 0 <= k < |name| && Accepts(rest, name[k..]);
        AcceptedIsLong(rest, name[k..]);
        assert |pat| == 2 && EndsInTwoStars(pat) ==> Shortest(rest[1..]) == [];
      }
    }
  }

  /** The matcher decides a pattern's language exactly when the pattern does not end in two stars. */
  lemma GlobIsLanguage(pat: string)
    ensures (forall name :: Accepts(pat, name) <==> Matches(pat, name)) <==> !EndsInTwoStars(pat)
  {
    forall name ensures Accepts(pat, name) ==> Matches(pat, name) {
      if Accepts(pat, name) {
        AcceptedIsMatched(pat, name);
      }
    }
    if EndsInTwoStars(pat) {
      ShortestMatches(pat);
      if Accepts(pat, Shortest(pat)) {
        AcceptedIsLong(pat, Shortest(pat));
      }
      assert !Accepts(pat, Shortest(pat));
    } else {
      forall name ensures Matches(pat, name) ==> Accepts(pat, name) {
        if Matches(pat, name) {
          MatchedIsAccepted(pat, name);
        }
      }
    }
  }
}
