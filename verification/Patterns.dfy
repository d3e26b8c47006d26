/** Matching file names against patterns with wildcards (f_findfirst). */
module Patterns {

  const QUEST: nat := 63
  const STAR: nat := 42

  predicate Wild(c: nat) {
    c == QUEST || c == STAR
  }

  /** Text without its terminating 0. */
  predicate Text(s: seq<nat>) {
    forall i | 0 <= i < |s| :: s[i] != 0
  }

  /** Case conversion leaves the end of the text alone and makes no other. */
  ghost predicate Upper(up: nat -> nat) {
    forall c :: up(c) == 0 <==> c == 0
  }

  /** What a pattern means: a star stands for any text, a question mark for any character, another character
      for itself in either case. */
  ghost predicate Matches(up: nat -> nat, pat: seq<nat>, nam: seq<nat>)
    decreases |pat|
  {
    if pat == [] then nam == []
    else if pat[0] == STAR then exists k | 0 <= k <= |nam| :: Matches(up, pat[1..], nam[k..])
    else nam != [] && (pat[0] == QUEST || up(pat[0]) == up(nam[0])) && Matches(up, pat[1..], nam[1..])
  }

  /** The pattern matches behind exactly (inf: at least) skip characters. */
  ghost predicate MatchesBehind(up: nat -> nat, pat: seq<nat>, nam: seq<nat>, skip: nat, inf: bool) {
    && skip <= |nam|
    && if inf then exists k | skip <= k <= |nam| :: Matches(up, pat, nam[k..]) else Matches(up, pat, nam[skip..])
  }

  lemma Later(nam: seq<nat>, j: nat, k: nat)
    requires j + k <= |nam|
    ensures nam[j..][k..] == nam[j + k..]
  {
  }

  /** A question mark before wildcards already summed up. */
  lemma QuestBefore(up: nat -> nat, rest: seq<nat>, nam: seq<nat>, skip: nat, inf: bool)
    ensures (nam != [] && MatchesBehind(up, rest, nam[1..], skip, inf)) <==> MatchesBehind(up, rest, nam, skip + 1, inf)
  {
    hide Matches;
    if skip < |nam| {
      Later(nam, 1, skip);
      if k :| skip + 1 <= k <= |nam| && Matches(up, rest, nam[k..]) {
        Later(nam, 1, k - 1);
        assert Matches(up, rest, nam[1..][k - 1..]);
      }
      if k :| skip <= k <= |nam| - 1 && Matches(up, rest, nam[1..][k..]) {
        Later(nam, 1, k);
        assert Matches(up, rest, nam[k + 1..]);
      }
    }
  }

  /** A star before them. */
  lemma StarBefore(up: nat -> nat, rest: seq<nat>, nam: seq<nat>, skip: nat, inf: bool)
    ensures (exists j | 0 <= j <= |nam| :: MatchesBehind(up, rest, nam[j..], skip, inf))
       <==> MatchesBehind(up, rest, nam, skip, true)
  {
    hide Matches;
    if j :| 0 <= j <= |nam| && MatchesBehind(up, rest, nam[j..], skip, inf) {
      var k :| skip <= k <= |nam| - j && Matches(up, rest, nam[j..][k..]);
      Later(nam, j, k);
      assert Matches(up, rest, nam[j + k..]);
    }
    if MatchesBehind(up, rest, nam, skip, true) {
      var k :| skip <= k <= |nam| && Matches(up, rest, nam[k..]);
      Later(nam, k - skip, skip);
      assert Matches(up, rest, nam[k - skip..][skip..]);
      assert MatchesBehind(up, rest, nam[k - skip..], skip, inf);
    }
  }

  /** A run of n wildcards at the start of a pattern asks for as many characters as it has question marks,
      or, if it has a star, for as many or more. */
  lemma {:induction false} Wildcards(up: nat -> nat, pat: seq<nat>, n: nat, nam: seq<nat>)
    requires n <= |pat| && forall i | 0 <= i < n :: Wild(pat[i])
    ensures Matches(up, pat, nam) <==> MatchesBehind(up, pat[n..], nam, Quests(pat[..n]), STAR in pat[..n])
    decreases n
  {
    if n == 0 {
      assert pat[0..] == pat && nam[0..] == nam;
    } else {
      var rest := pat[1..];
      assert rest[n - 1..] == pat[n..] && pat[..n] == [pat[0]] + rest[..n - 1];
      assert pat[..n][0] == pat[0] && pat[..n][1..] == rest[..n - 1];
      forall s: seq<nat>
        ensures Matches(up, rest, s) <==> MatchesBehind(up, pat[n..], s, Quests(rest[..n - 1]), STAR in rest[..n - 1])
      {
        Wildcards(up, rest, n - 1, s);
      }
      FirstWildcard(up, pat[0], rest, pat[n..], nam, Quests(rest[..n - 1]), STAR in rest[..n - 1]);
      assert pat == [pat[0]] + rest;
    }
  }

  lemma FirstWildcard(up: nat -> nat, c: nat, rest: seq<nat>, tail: seq<nat>, nam: seq<nat>, skip: nat, inf: bool)
    requires Wild(c) && forall s: seq<nat> :: Matches(up, rest, s) <==> MatchesBehind(up, tail, s, skip, inf)
    ensures Matches(up, [c] + rest, nam) <==>
            MatchesBehind(up, tail, nam, skip + if c == QUEST then 1 else 0, inf || c == STAR)
  {
    hide MatchesBehind;
    QuestBefore(up, tail, nam, skip, inf);
    StarBefore(up, tail, nam, skip, inf);
    assert ([c] + rest)[1..] == rest;
  }

  /** Number of question marks. */
  function Quests(s: seq<nat>): nat {
    if s == [] then 0 else (if s[0] == QUEST then 1 else 0) + Quests(s[1..])
  }

  lemma {:induction false} QuestsMore(s: seq<nat>, c: nat)
    ensures Quests(s + [c]) == Quests(s) + if c == QUEST then 1 else 0
  {
    if s != [] {
      assert (s + [c])[1..] == s[1..] + [c];
      QuestsMore(s[1..], c);
    }
  }

  /** The first i characters, none a wildcard, are the same in both. */
  ghost predicate Agree(up: nat -> nat, pat: seq<nat>, nam: seq<nat>, i: nat)
    requires i <= |pat| && i <= |nam|
  {
    forall k | 0 <= k < i :: !Wild(pat[k]) && up(pat[k]) == up(nam[k])
  }

  lemma {:induction false} MatchesAfter(up: nat -> nat, pat: seq<nat>, nam: seq<nat>, i: nat)
    requires i <= |pat| && i <= |nam| && Agree(up, pat, nam, i)
    ensures Matches(up, pat, nam) <==> Matches(up, pat[i..], nam[i..])
    decreases i
  {
    if i == 0 {
      assert pat[0..] == pat && nam[0..] == nam;
    } else {
      assert pat[1..][i - 1..] == pat[i..] && nam[1..][i - 1..] == nam[i..];
      MatchesAfter(up, pat[1..], nam[1..], i - 1);
    }
  }

  /** A pattern that starts with m other characters matches no shorter text. */
  lemma {:induction false} NeedsLength(up: nat -> nat, pat: seq<nat>, nam: seq<nat>, m: nat)
    requires m <= |pat| && (forall k | 0 <= k < m :: !Wild(pat[k])) && Matches(up, pat, nam)
    ensures m <= |nam|
    decreases m
  {
    if m > 0 {
      NeedsLength(up, pat[1..], nam[1..], m - 1);
    }
  }

  /** The wildcards from position i on: where they end, the number of question marks, whether there is a star. */
  method Analyze(pat: seq<nat>, i: nat) returns (pp: nat, nm: nat, nx: bool)
    requires i < |pat| && Wild(pat[i])
    ensures i < pp <= |pat| && forall k | i <= k < pp :: Wild(pat[k])
    ensures nm == Quests(pat[i..pp]) && (nx <==> STAR in pat[i..pp])
  {
    pp, nm, nx := i, 0, false;
    while pp < |pat| && Wild(pat[pp])
      invariant i <= pp <= |pat| && forall k | i <= k < pp :: Wild(pat[k])
      invariant nm == Quests(pat[i..pp]) && (nx <==> STAR in pat[i..pp])
    {
      QuestsMore(pat[i..pp], pat[pp]);
      assert pat[i..pp + 1] == pat[i..pp] + [pat[pp]];
      if pat[pp] == QUEST {
        nm := nm + 1;
      } else {
        nx := true;
      }
      pp := pp + 1;
    }
  }

  /** get_achar(): the character at position i in upper case, 0 at the end. */
  function Achar(up: nat -> nat, s: seq<nat>, i: nat): nat {
    if i < |s| then up(s[i]) else 0
  }

  /** Compare from the top of pattern and name, recursively behind the next wildcards; nc is 0 if the end of
      the name was reached, and then no later part of the name can match either. */
  method Attempt(up: nat -> nat, pat: seq<nat>, nam: seq<nat>) returns (matched: bool, nc: nat)
    requires Upper(up) && Text(pat) && Text(nam)
    ensures matched <==> Matches(up, pat, nam)
    ensures !matched && nc != 0 ==> nam != []
    ensures !matched && nc == 0 ==> forall j | 0 <= j <= |nam| :: !Matches(up, pat, nam[j..])
    decreases |pat|, 0
  {
    var i := 0;
    while true
      invariant i <= |pat| && i <= |nam| && Agree(up, pat, nam, i)
      decreases |pat| - i
    {
      MatchesAfter(up, pat, nam, i);
      if i < |pat| && Wild(pat[i]) {
        var pp, nm, nx := Analyze(pat, i);
        var m := PatternMatching(up, pat[pp..], nam[i..], nm, nx);
        BehindWildcards(up, pat, nam, i, pp);
        if m {
          return true, 0;
        }
        Exhausted(up, pat, nam, i);
        return false, if i < |nam| then nam[i] else 0;
      }
      var pc := Achar(up, pat, i);
      nc := Achar(up, nam, i);
      if pc != nc {
        Differs(up, pat, nam, i);
        return false, nc;
      }
      if pc == 0 {
        return true, 0;
      }
      i := i + 1;
    }
  }

  lemma BehindWildcards(up: nat -> nat, pat: seq<nat>, nam: seq<nat>, i: nat, pp: nat)
    requires i < pp <= |pat| && i <= |nam| && forall k | i <= k < pp :: Wild(pat[k])
    ensures Matches(up, pat[i..], nam[i..])
       <==> MatchesBehind(up, pat[pp..], nam[i..], Quests(pat[i..pp]), STAR in pat[i..pp])
  {
    assert pat[i..][pp - i..] == pat[pp..] && pat[i..][..pp - i] == pat[i..pp];
    Wildcards(up, pat[i..], pp - i, nam[i..]);
  }

  /** When the name ends behind the first i characters, and does not match, no later part of it matches. */
  lemma Exhausted(up: nat -> nat, pat: seq<nat>, nam: seq<nat>, i: nat)
    requires i <= |pat| && i <= |nam| && Agree(up, pat, nam, i) && !Matches(up, pat, nam)
    ensures i == |nam| ==> forall j | 0 <= j <= |nam| :: !Matches(up, pat, nam[j..])
  {
    assert nam[0..] == nam;
    forall j | 0 <= j <= |nam|
      ensures i == |nam| ==> !Matches(up, pat, nam[j..])
    {
      if Matches(up, pat, nam[j..]) {
        NeedsLength(up, pat, nam[j..], i);
      }
    }
  }

  lemma Differs(up: nat -> nat, pat: seq<nat>, nam: seq<nat>, i: nat)
    requires Upper(up) && Text(pat) && Text(nam) && i <= |pat| && i <= |nam| && Agree(up, pat, nam, i)
    requires (i < |pat| ==> !Wild(pat[i])) && Achar(up, pat, i) != Achar(up, nam, i)
    ensures !Matches(up, pat, nam)
    ensures Achar(up, nam, i) != 0 ==> nam != []
    ensures Achar(up, nam, i) == 0 ==> forall j | 0 <= j <= |nam| :: !Matches(up, pat, nam[j..])
  {
    MatchesAfter(up, pat, nam, i);
    Exhausted(up, pat, nam, i);
  }

  /** pattern_matching(). */
  method PatternMatching(up: nat -> nat, pat: seq<nat>, nam: seq<nat>, skip: nat, inf: bool) returns (r: bool)
    requires Upper(up) && Text(pat) && Text(nam)
    ensures r <==> MatchesBehind(up, pat, nam, skip, inf)
    decreases |pat|, 1
  {
    var n := 0;
    while n < skip
      invariant n <= skip && n <= |nam|
    {
      if Achar(up, nam, n) == 0 {
        return false;
      }
      n := n + 1;
    }
    if pat == [] && inf {
      assert nam[|nam|..] == [];
      return true;
    }
    while true
      invariant skip <= n <= |nam| && forall k | skip <= k < n :: !Matches(up, pat, nam[k..])
      invariant n > skip ==> inf
      decreases |nam| - n
    {
      var matched, nc := Attempt(up, pat, nam[n..]);
      if matched {
        return true;
      }
      if !(inf && nc != 0) {
        AllLater(up, pat, nam, n);
        return false;
      }
      n := n + 1;
    }
  }

  lemma AllLater(up: nat -> nat, pat: seq<nat>, nam: seq<nat>, n: nat)
    requires n <= |nam|
    ensures (forall j | 0 <= j <= |nam| - n :: !Matches(up, pat, nam[n..][j..])) ==>
              forall k | n <= k <= |nam| :: !Matches(up, pat, nam[k..])
  {
    forall k | n <= k <= |nam|
      ensures nam[n..][k - n..] == nam[k..]
    {
    }
  }
}
