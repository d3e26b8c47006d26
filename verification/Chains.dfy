/** Cluster chains in a table of FAT entries: an entry holds the next cluster of its chain, a value
    that is no cluster number at the end of a chain, or 0 when the cluster is free. */
module Chains {

  ghost predicate InTable(n: nat, ch: seq<nat>) {
    forall i | 0 <= i < |ch| :: 2 <= ch[i] < n
  }

  ghost predicate Distinct(ch: seq<nat>) {
    forall i, j | 0 <= i < j < |ch| :: ch[i] != ch[j]
  }

  /** Every cluster of ch leads to the next one, and the last one ends the chain. */
  ghost predicate IsChain(t: seq<nat>, ch: seq<nat>) {
    && 0 < |ch|
    && InTable(|t|, ch)
    && (forall i | 0 <= i < |ch| - 1 :: t[ch[i]] == ch[i + 1])
    && t[ch[|ch| - 1]] >= |t|
  }

  /** A chain that ends never visits a cluster twice. */
  lemma {:induction false} ChainIsAcyclic(t: seq<nat>, ch: seq<nat>)
    requires IsChain(t, ch)
    ensures Distinct(ch)
  {
    forall i, j | 0 <= i < j < |ch|
      ensures ch[i] != ch[j]
    {
      if ch[i] == ch[j] {
        var m := |ch| - 1 - j;
        InnerIsNotLast(t, ch, i + m);
        ShiftEqual(t, ch, i, j, m);
      }
    }
  }

  lemma InnerIsNotLast(t: seq<nat>, ch: seq<nat>, i: nat)
    requires IsChain(t, ch) && i < |ch| - 1
    ensures ch[i] != ch[|ch| - 1]
  {
    assert t[ch[i]] == ch[i + 1];
  }

  lemma {:induction false} ShiftEqual(t: seq<nat>, ch: seq<nat>, i: nat, j: nat, m: nat)
    requires IsChain(t, ch) && i < j && j + m < |ch| && ch[i] == ch[j]
    ensures ch[i + m] == ch[j + m]
  {
    if m > 0 {
      ShiftEqual(t, ch, i, j, m - 1);
    }
  }

  // ---------------------------------------------------------------- all chains of a volume

  ghost predicate Apart(a: seq<nat>, b: seq<nat>) {
    forall x | x in a :: x !in b
  }

  ghost predicate Covered(chs: set<seq<nat>>, c: nat) {
    exists ch | ch in chs :: c in ch
  }

  /** The whole FAT is the set of disjoint chains chs: every cluster in use is on one of them. */
  ghost predicate WellFormed(t: seq<nat>, chs: set<seq<nat>>) {
    AllChains(t, chs) && AllApart(chs) && AllCovered(t, chs)
  }

  ghost predicate AllChains(t: seq<nat>, chs: set<seq<nat>>) {
    forall ch | ch in chs :: IsChain(t, ch)
  }

  ghost predicate AllApart(chs: set<seq<nat>>) {
    forall a, b | a in chs && b in chs && a != b :: Apart(a, b)
  }

  ghost predicate AllCovered(t: seq<nat>, chs: set<seq<nat>>) {
    forall c | 2 <= c < |t| && t[c] != 0 :: Covered(chs, c)
  }

  /** Clusters on a chain are in use. */
  lemma OnChainInUse(t: seq<nat>, ch: seq<nat>)
    requires IsChain(t, ch)
    ensures forall c | c in ch :: 2 <= c < |t| && t[c] >= 2
  {
    forall i | 0 <= i < |ch|
      ensures t[ch[i]] >= 2
    {
      if i < |ch| - 1 {
        assert t[ch[i]] == ch[i + 1];
      }
    }
  }

  /** The effect of create_chain() on the table: `last` (0 for a new chain) leads to the new end. */
  function Grown(t: seq<nat>, last: nat, new_: nat, eoc: nat): (r: seq<nat>)
    requires new_ < |t| && last < |t|
    ensures |r| == |t|
  {
    if last == 0 then t[new_ := eoc] else t[new_ := eoc][last := new_]
  }

  /** A chain that holds neither changed cluster is still a chain. */
  lemma ChainKept(t: seq<nat>, t': seq<nat>, ch: seq<nat>)
    requires IsChain(t, ch) && |t'| == |t|
    requires forall c | c in ch :: t'[c] == t[c]
    ensures IsChain(t', ch)
  {
    forall i | 0 <= i < |ch| - 1
      ensures t'[ch[i]] == ch[i + 1]
    {
      assert ch[i] in ch;
    }
    assert ch[|ch| - 1] in ch;
  }

  /** What changes when the chain a (or []: none) gives way to the chain b (or []: none): nothing off
      those two. */
  ghost predicate Replaces(t: seq<nat>, a: seq<nat>, t': seq<nat>, b: seq<nat>) {
    && |t'| == |t|
    && (b == [] || IsChain(t', b))
    && (forall c | 2 <= c < |t| && c !in a && c !in b :: t'[c] == t[c])
    && (forall c | 2 <= c < |t| && c in a && c !in b :: t'[c] == 0)
    && (forall c | 2 <= c < |t| && c in b && c !in a :: t[c] == 0)
  }

  /** The collection chs with the chain a (or none) replaced by the chain b (or none). */
  ghost function Replaced(chs: set<seq<nat>>, a: seq<nat>, b: seq<nat>): set<seq<nat>> {
    (if a == [] then chs else chs - {a}) + (if b == [] then {} else {b})
  }

  /** A chain that stays shares no cluster with the one that goes and the one that comes. */
  lemma ChainStays(t: seq<nat>, chs: set<seq<nat>>, a: seq<nat>, t': seq<nat>, b: seq<nat>, ch: seq<nat>)
    requires AllChains(t, chs) && AllApart(chs) && (a == [] || a in chs) && Replaces(t, a, t', b)
    requires ch in chs && ch != a
    ensures IsChain(t', ch) && Apart(ch, b) && Apart(b, ch)
  {
    OnChainInUse(t, ch);
    assert Apart(ch, a);
    assert forall x | x in ch :: x !in b;
    ChainKept(t, t', ch);
  }

  lemma ChainsStay(t: seq<nat>, chs: set<seq<nat>>, a: seq<nat>, t': seq<nat>, b: seq<nat>)
    requires AllChains(t, chs) && AllApart(chs) && (a == [] || a in chs) && Replaces(t, a, t', b)
    ensures AllChains(t', Replaced(chs, a, b)) && AllApart(Replaced(chs, a, b))
  {
    forall ch | ch in chs && ch != a
      ensures IsChain(t', ch) && Apart(ch, b) && Apart(b, ch)
    {
      ChainStays(t, chs, a, t', b, ch);
    }
  }

  lemma StillCovered(t: seq<nat>, chs: set<seq<nat>>, a: seq<nat>, t': seq<nat>, b: seq<nat>)
    requires AllCovered(t, chs) && (a == [] || a in chs) && Replaces(t, a, t', b)
    ensures AllCovered(t', Replaced(chs, a, b))
  {
    forall c | 2 <= c < |t'| && t'[c] != 0
      ensures Covered(Replaced(chs, a, b), c)
    {
      if c in b {
        assert b in Replaced(chs, a, b);
      } else {
        assert t[c] != 0 && c !in a;
        var ch :| ch in chs && c in ch;
        assert ch in Replaced(chs, a, b);
      }
    }
  }

  /** Replacing, adding or dropping one chain of a well-formed FAT, when nothing changes off it. */
  lemma ReplaceChain(t: seq<nat>, chs: set<seq<nat>>, a: seq<nat>, t': seq<nat>, b: seq<nat>)
    requires WellFormed(t, chs) && (a == [] || a in chs) && Replaces(t, a, t', b)
    ensures WellFormed(t', Replaced(chs, a, b))
  {
    ChainsStay(t, chs, a, t', b);
    StillCovered(t, chs, a, t', b);
  }

  lemma ChainExtended(t: seq<nat>, ch: seq<nat>, new_: nat, eoc: nat)
    requires IsChain(t, ch) && 2 <= new_ < |t| && t[new_] == 0 && eoc >= |t|
    ensures IsChain(Grown(t, ch[|ch| - 1], new_, eoc), ch + [new_])
  {
    ChainIsAcyclic(t, ch);
    OnChainInUse(t, ch);
    assert ch[|ch| - 1] in ch;
    var t', a := Grown(t, ch[|ch| - 1], new_, eoc), ch + [new_];
    forall i | 0 <= i < |a| - 1
      ensures t'[a[i]] == a[i + 1]
    {
      assert a[i] == ch[i] && ch[i] in ch;
      if i < |ch| - 1 {
        assert a[i + 1] == ch[i + 1] && ch[i] != ch[|ch| - 1];
      }
    }
  }

  /** Appending a free cluster extends one chain and leaves the others alone. */
  lemma StretchKeepsChains(t: seq<nat>, chs: set<seq<nat>>, ch: seq<nat>, new_: nat, eoc: nat)
    requires WellFormed(t, chs) && ch in chs
    requires 2 <= new_ < |t| && t[new_] == 0 && eoc >= |t|
    ensures WellFormed(Grown(t, ch[|ch| - 1], new_, eoc), chs - {ch} + {ch + [new_]})
  {
    ChainExtended(t, ch, new_, eoc);
    assert ch[|ch| - 1] in ch;
    ReplaceChain(t, chs, ch, Grown(t, ch[|ch| - 1], new_, eoc), ch + [new_]);
  }

  /** Starting a chain on a free cluster adds a chain of one cluster. */
  lemma StartKeepsChains(t: seq<nat>, chs: set<seq<nat>>, new_: nat, eoc: nat)
    requires WellFormed(t, chs)
    requires 2 <= new_ < |t| && t[new_] == 0 && eoc >= |t|
    ensures WellFormed(Grown(t, 0, new_, eoc), chs + {[new_]})
  {
    NewChain(t, new_, eoc);
    ReplaceChain(t, chs, [], Grown(t, 0, new_, eoc), [new_]);
  }

  lemma NewChain(t: seq<nat>, new_: nat, eoc: nat)
    requires 2 <= new_ < |t| && t[new_] == 0 && eoc >= |t|
    ensures Replaces(t, [], Grown(t, 0, new_, eoc), [new_])
  {
  }

  // ---------------------------------------------------------------- removing a chain

  /** Number of free clusters. */
  function FreeCount(t: seq<nat>, n: nat): (k: nat)
    requires n <= |t|
    ensures k <= if n < 2 then 0 else n - 2
  {
    if n <= 2 then 0 else FreeCount(t, n - 1) + if t[n - 1] == 0 then 1 else 0
  }

  lemma {:induction false} FreeCountSet(t: seq<nat>, n: nat, c: nat, v: nat)
    requires n <= |t| && 2 <= c < |t|
    ensures FreeCount(t[c := v], n) + (if c < n && t[c] == 0 then 1 else 0)
         == FreeCount(t, n) + (if c < n && v == 0 then 1 else 0)
  {
    if n > 2 {
      FreeCountSet(t, n - 1, c, v);
    }
  }

  datatype Removal = Removed(table: seq<nat>) | Broken(table: seq<nat>)

  /** What the loop of remove_chain() does to the table from cluster c on.  Every step frees a cluster,
      so it ends on every table, cyclic or not. */
  function Remove(t: seq<nat>, c: nat): (r: Removal)
    requires 2 <= c < |t|
    ensures |r.table| == |t|
    decreases |t| - FreeCount(t, |t|)
  {
    if t[c] == 0 then Removed(t)
    else if t[c] == 1 then Broken(t)
    else
      FreeCountSet(t, |t|, c, 0);
      var t' := t[c := 0];
      if t[c] < |t| then Remove(t', t[c]) else Removed(t')
  }

  /** A walk along the links of the table. */
  ghost predicate Path(t: seq<nat>, p: seq<nat>) {
    0 < |p| && InTable(|t|, p) && forall i | 0 <= i < |p| - 1 :: t[p[i]] == p[i + 1]
  }

  /** Following the links of any table, cyclic or merging ones too, leads from c to x. */
  ghost predicate Reaches(t: seq<nat>, c: nat, x: nat) {
    exists p :: Path(t, p) && p[0] == c && p[|p| - 1] == x
  }

  lemma ReachesSelf(t: seq<nat>, c: nat)
    requires 2 <= c < |t|
    ensures Reaches(t, c, c)
  {
    assert Path(t, [c]);
  }

  lemma ReachesBack(t: seq<nat>, c: nat, x: nat)
    requires 2 <= c < |t| && 2 <= t[c] < |t| && Reaches(t[c := 0], t[c], x)
    ensures Reaches(t, c, x)
  {
    var p :| Path(t[c := 0], p) && p[0] == t[c] && p[|p| - 1] == x;
    var q := [c] + p;
    forall i | 0 <= i < |q| - 1
      ensures t[q[i]] == q[i + 1]
    {
      if i > 0 {
        assert t[c := 0][p[i - 1]] == p[i];
      }
    }
    assert Path(t, q);
  }

  /** A walk stays clear of c, ends in it, or goes on clear of c from where c leads. */
  lemma {:induction false} AroundCluster(t: seq<nat>, c: nat, p: seq<nat>)
    requires 2 <= c < |t| && Path(t, p)
    ensures var x := p[|p| - 1];
      x == c || Reaches(t[c := 0], p[0], x) || (2 <= t[c] < |t| && Reaches(t[c := 0], t[c], x))
    decreases |p|
  {
    var t', x := t[c := 0], p[|p| - 1];
    if |p| == 1 {
      ReachesSelf(t', p[0]);
    } else {
      AroundCluster(t, c, p[1..]);
      if Reaches(t', p[1], x) && p[0] != c {
        var q :| Path(t', q) && q[0] == p[1] && q[|q| - 1] == x;
        assert Path(t', [p[0]] + q);
      }
    }
  }

  /** What c reaches is c and what its successor reaches once c is freed. */
  lemma ReachesStep(t: seq<nat>, c: nat, x: nat)
    requires 2 <= c < |t|
    ensures Reaches(t, c, x) <==> x == c || (2 <= t[c] < |t| && Reaches(t[c := 0], t[c], x))
  {
    if Reaches(t, c, x) {
      var p :| Path(t, p) && p[0] == c && p[|p| - 1] == x;
      AroundCluster(t, c, p);
      if Reaches(t[c := 0], c, x) {
        var q :| Path(t[c := 0], q) && q[0] == c && q[|q| - 1] == x;
        assert |q| > 1 ==> q[1] == 0;
      }
    }
    if x == c {
      ReachesSelf(t, c);
    } else if 2 <= t[c] < |t| && Reaches(t[c := 0], t[c], x) {
      ReachesBack(t, c, x);
    }
  }

  /** t with every cluster that c reaches free, but for entries of value 1. */
  ghost predicate Swept(t: seq<nat>, c: nat, t': seq<nat>) {
    |t'| == |t| && forall x | 0 <= x < |t| :: t'[x] == if Reaches(t, c, x) && t[x] != 1 then 0 else t[x]
  }

  /** c reaches a cluster whose entry is 1. */
  ghost predicate ReachesBad(t: seq<nat>, c: nat) {
    exists x | 0 <= x < |t| :: Reaches(t, c, x) && t[x] == 1
  }

  /** On every table the loop frees just the clusters that c reaches, and it gives up just when one of
      them has an entry of value 1. */
  lemma {:induction false} RemoveSweeps(t: seq<nat>, c: nat)
    requires 2 <= c < |t|
    ensures Swept(t, c, Remove(t, c).table)
    ensures Remove(t, c).Broken? <==> ReachesBad(t, c)
    decreases |t| - FreeCount(t, |t|)
  {
    FreeCountSet(t, |t|, c, 0);
    forall x: nat
      ensures Reaches(t, c, x) <==> x == c || (2 <= t[c] < |t| && Reaches(t[c := 0], t[c], x))
    {
      ReachesStep(t, c, x);
    }
    if 2 <= t[c] < |t| {
      RemoveSweeps(t[c := 0], t[c]);
    }
  }

  /** Nothing but entries of clusters that c reaches differs between t and t'. */
  ghost predicate Unreached(t: seq<nat>, c: nat, t': seq<nat>) {
    |t'| == |t| && forall x | 0 <= x < |t| && !Reaches(t, c, x) :: t'[x] == t[x]
  }

  /** Only the entry of cluster c differs. */
  ghost predicate SameBut(t: seq<nat>, t': seq<nat>, c: nat) {
    |t'| == |t| && forall x | 0 <= x < |t| && x != c :: t'[x] == t[x]
  }

  /** Whatever c' reaches now, c reached at first, and no other entry has changed. */
  ghost predicate Trails(t: seq<nat>, c: nat, t': seq<nat>, c': nat) {
    Unreached(t, c, t') && forall x :: Reaches(t', c', x) ==> Reaches(t, c, x)
  }

  lemma TrailsSelf(t: seq<nat>, c: nat)
    ensures Trails(t, c, t, c)
  {
  }

  /** One turn of the loop stays among the clusters that c reaches, finished or not. */
  lemma TrailsOn(t: seq<nat>, c: nat, t1: seq<nat>, c1: nat, t2: seq<nat>)
    requires Trails(t, c, t1, c1) && 2 <= c1 < |t1|
    requires SameBut(t1, t2, c1)
    ensures Unreached(t, c, t2)
    ensures t2 == t1[c1 := 0] && 2 <= t1[c1] < |t1| ==> Trails(t, c, t2, t1[c1])
  {
    ReachesSelf(t1, c1);
    if t2 == t1[c1 := 0] && 2 <= t1[c1] < |t1| {
      forall x | Reaches(t2, t1[c1], x)
        ensures Reaches(t, c, x)
      {
        ReachesBack(t1, c1, x);
      }
    }
  }

  /** t with the clusters of ch free. */
  function Cleared(t: seq<nat>, ch: seq<nat>): (r: seq<nat>)
    ensures |r| == |t|
  {
    seq(|t|, c requires 0 <= c < |t| => if c in ch then 0 else t[c])
  }

  /** On a chain, exactly the clusters from c to its end become free. */
  lemma {:induction false} RemoveFreesChain(t: seq<nat>, ch: seq<nat>)
    requires IsChain(t, ch)
    ensures Remove(t, ch[0]) == Removed(Cleared(t, ch))
    decreases |ch|
  {
    ChainIsAcyclic(t, ch);
    var t' := t[ch[0] := 0];
    if |ch| == 1 {
      assert t' == Cleared(t, ch);
    } else {
      assert t[ch[0]] == ch[1];
      var rest := ch[1..];
      assert IsChain(t', rest) by {
        forall i | 0 <= i < |rest| - 1
          ensures t'[rest[i]] == rest[i + 1]
        {
          assert t[ch[i + 1]] == ch[i + 2];
        }
      }
      RemoveFreesChain(t', rest);
      assert ch == [ch[0]] + rest;
      assert Cleared(t', rest) == Cleared(t, ch);
    }
  }

  lemma ChainSuffix(t: seq<nat>, ch: seq<nat>, k: nat)
    requires IsChain(t, ch) && k < |ch|
    ensures IsChain(t, ch[k..])
  {
    var s := ch[k..];
    forall i | 0 <= i < |s| - 1
      ensures t[s[i]] == s[i + 1]
    {
      assert t[ch[k + i]] == ch[k + i + 1];
    }
  }

  /** The table after remove_chain(obj, ch[k], ch[k - 1]), or after remove_chain(obj, ch[0], 0). */
  function Cut(t: seq<nat>, ch: seq<nat>, k: nat, eoc: nat): (r: seq<nat>)
    requires InTable(|t|, ch) && k < |ch|
    ensures |r| == |t|
  {
    Cleared(if k == 0 then t else t[ch[k - 1] := eoc], ch[k..])
  }

  lemma CutChain(t: seq<nat>, ch: seq<nat>, k: nat, eoc: nat)
    requires IsChain(t, ch) && k < |ch| && eoc >= |t|
    ensures Remove(if k == 0 then t else t[ch[k - 1] := eoc], ch[k]) == Removed(Cut(t, ch, k, eoc))
    ensures k > 0 ==> IsChain(Cut(t, ch, k, eoc), ch[..k])
  {
    var t1 := if k == 0 then t else t[ch[k - 1] := eoc];
    ChainIsAcyclic(t, ch);
    ChainSuffix(t, ch, k);
    SplitDistinct(ch, k);
    ChainKept(t, t1, ch[k..]);
    RemoveFreesChain(t1, ch[k..]);
    if k > 0 {
      CutHead(t, ch, k, eoc);
    }
  }

  /** Cutting a chain after k clusters (0: removing all of it) leaves the other chains alone. */
  lemma CutKeepsChains(t: seq<nat>, chs: set<seq<nat>>, ch: seq<nat>, k: nat, eoc: nat)
    requires WellFormed(t, chs) && ch in chs && k < |ch| && eoc >= |t|
    ensures WellFormed(Cut(t, ch, k, eoc), Replaced(chs, ch, ch[..k]))
  {
    ChainIsAcyclic(t, ch);
    CutChain(t, ch, k, eoc);
    SplitDistinct(ch, k);
    ReplaceChain(t, chs, ch, Cut(t, ch, k, eoc), ch[..k]);
  }

  lemma SplitDistinct(ch: seq<nat>, k: nat)
    requires Distinct(ch) && k <= |ch|
    ensures forall c :: c in ch <==> c in ch[..k] || c in ch[k..]
    ensures forall c :: !(c in ch[..k] && c in ch[k..])
    ensures k > 0 ==> ch[k - 1] in ch[..k]
  {
    assert ch == ch[..k] + ch[k..];
    assert k > 0 ==> ch[..k][k - 1] == ch[k - 1];
  }

  lemma CutHead(t: seq<nat>, ch: seq<nat>, k: nat, eoc: nat)
    requires IsChain(t, ch) && Distinct(ch) && 0 < k < |ch| && eoc >= |t|
    ensures IsChain(Cleared(t[ch[k - 1] := eoc], ch[k..]), ch[..k])
  {
    var t' := Cleared(t[ch[k - 1] := eoc], ch[k..]);
    var a := ch[..k];
    forall i | 0 <= i < k
      ensures t'[a[i]] == if i == k - 1 then eoc else t[a[i]]
    {
      assert a[i] == ch[i];
      assert forall j | 0 <= j < |ch[k..]| :: ch[k..][j] == ch[k + j];
      assert a[i] !in ch[k..];
    }
  }
}
