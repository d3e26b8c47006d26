/** The cluster chain of one object when part of it is not on the FAT.  On an exFAT volume an object
    that lies in one piece has no FAT chain at all, and while a file grows the links inside its first
    and its last fragment are kept as counts and written later. */
module ObjChains {
  import opened Chains
  import opened Volumes

  const EOC31: nat := 0x7FFF_FFFF

  /** Chain status of an object: stat 0 (the FAT chain is valid), 2 (contiguous, nothing on the FAT) or
      3 (fragmented since it was opened); nCont, the size of the first fragment - 1 (stat 3); nFrag, the
      number of clusters of the last fragment that have to be written to the FAT (0: none). */
  datatype Alloc = Alloc(stat: nat, nCont: nat, nFrag: nat)

  /** On a FAT12, FAT16 or FAT32 volume the whole chain is always on the FAT. */
  const ON_FAT: Alloc := Alloc(0, 0, 0)

  /** ch[lo..hi] are consecutive clusters. */
  ghost predicate Run(ch: seq<nat>, lo: int, hi: int) {
    0 <= lo <= hi <= |ch| && forall i | lo <= i < hi :: ch[i] == ch[lo] + (i - lo)
  }

  lemma RunOfOne(ch: seq<nat>, i: nat)
    requires i < |ch|
    ensures Run(ch, i, i + 1)
  {
  }

  lemma RunGrows(ch: seq<nat>, lo: int, i: nat)
    requires Run(ch, lo, i + 1) && lo <= i && i + 1 < |ch|
    ensures ch[i + 1] == ch[i] + 1 ==> Run(ch, lo, i + 2)
    ensures Run(ch, i + 1, i + 2)
  {
  }

  lemma InRun(ch: seq<nat>, lo: int, hi: int, c: nat)
    requires Run(ch, lo, hi) && lo < hi && ch[lo] <= c < ch[lo] + (hi - lo)
    ensures ch[lo + (c - ch[lo])] == c
  {
  }

  /** Number of the first link that has to be on the FAT. */
  function FirstLink(a: Alloc): nat {
    if a.stat == 3 then a.nCont else 0
  }

  /** Number of clusters in the first fragment. */
  function Head(a: Alloc): nat {
    if a.stat == 3 then a.nCont + 1 else 0
  }

  /** The status a and the table t together describe the chain ch. */
  ghost predicate Holds(t: seq<nat>, a: Alloc, ch: seq<nat>) {
    && 0 < |ch|
    && InTable(|t|, ch)
    && Distinct(ch)
    && (a.stat == 0 || a.stat == 2 || a.stat == 3)
    && (a.stat == 2 ==> a.nFrag == 0 && Run(ch, 0, |ch|))
    && (a.stat == 3 ==> Head(a) < |ch| && Run(ch, 0, Head(a)) && ch[Head(a)] != ch[a.nCont] + 1)
    && (a.stat != 2 ==> OnFat(t, a, ch))
  }

  ghost predicate OnFat(t: seq<nat>, a: Alloc, ch: seq<nat>)
    requires 0 < |ch| && InTable(|t|, ch)
  {
    && Head(a) + a.nFrag <= |ch|
    && Run(ch, |ch| - a.nFrag, |ch|)
    && (forall i | FirstLink(a) <= i < |ch| - 1 && i < |ch| - a.nFrag :: t[ch[i]] == ch[i + 1])
    && (a.nFrag == 0 ==> t[ch[|ch| - 1]] >= |t|)
  }

  /** With the whole chain on the FAT, Holds is what IsChain says. */
  lemma OnFatIsChain(t: seq<nat>, ch: seq<nat>)
    ensures Holds(t, ON_FAT, ch) <==> IsChain(t, ch)
  {
    if IsChain(t, ch) {
      ChainIsAcyclic(t, ch);
    }
  }

  /** The description of a chain depends on the entries of its clusters only. */
  lemma HoldsFrame(t: seq<nat>, t': seq<nat>, a: Alloc, ch: seq<nat>)
    requires Holds(t, a, ch) && |t'| == |t| && forall c | c in ch :: 2 <= c < |t| && t'[c] == t[c]
    ensures Holds(t', a, ch)
  {
    forall i | 0 <= i < |ch|
      ensures t'[ch[i]] == t[ch[i]]
    {
      assert ch[i] in ch;
    }
  }

  // ---------------------------------------------------------------- reading a link

  /** get_fat() on an exFAT volume: the value generated for, or read from, entry c.  `clen` is the
      number of clusters of the object size - 1, or negative for size 0. */
  function View(t: seq<nat>, a: Alloc, sclust: nat, clen: int, c: nat): nat
    requires c < |t|
  {
    if clen < 0 then 1
    else if a.stat == 2 && Sub32(c, sclust) <= clen then
      if Sub32(c, sclust) == clen then EOC31 else c + 1
    else if a.stat == 3 && Sub32(c, sclust) < a.nCont then c + 1
    else if a.stat == 2 then 1
    else if a.nFrag != 0 then EOC31
    else t[c]
  }

  /** The links get_fat() can follow: all of them, or while the last fragment is not on the FAT only those
      of the first fragment and the end. */
  ghost predicate Readable(a: Alloc, ch: seq<nat>, i: nat) {
    a.stat == 2 || a.nFrag == 0 || i + 1 == |ch| || (a.stat == 3 && i < a.nCont)
  }

  /** v is what follows cluster number i of ch: the next cluster, or no cluster number at the end. */
  ghost predicate Follows(n: nat, ch: seq<nat>, i: nat, v: nat)
    requires i < |ch|
  {
    if i + 1 < |ch| then v == ch[i + 1] else v >= n
  }

  /** get_fat() follows the clusters rest up to an end mark. */
  ghost predicate Chained(t: seq<nat>, a: Alloc, sclust: nat, clen: int, rest: seq<nat>) {
    && InTable(|t|, rest)
    && forall j | 0 <= j < |rest| :: Follows(|t|, rest, j, View(t, a, sclust, clen, rest[j]))
  }

  /** A chain on the FAT of a volume with three clusters, whose end mark is the number after its last one. */
  lemma StoredMarkAfterLast()
    ensures var t, a, ch := [0x7FFF_FFF8, 0x7FFF_FFFF, 0, 4, 5], Alloc(0, 0, 0), [3, 4];
      Holds(t, a, ch) && Chained(t, a, 3, 1, ch) && View(t, a, 3, 1, 4) == 4 + 1
  {
    var t, a, ch := [0x7FFF_FFF8, 0x7FFF_FFFF, 0, 4, 5], Alloc(0, 0, 0), [3, 4];
    assert Follows(|t|, ch, 0, View(t, a, 3, 1, 3)) && Follows(|t|, ch, 1, View(t, a, 3, 1, 4));
    RunOfOne(ch, 0);
  }

  /** The last cluster of the largest volume, as a contiguous object of its own: the end mark that get_fat()
      generates is the number after it. */
  lemma GeneratedMarkAfterLast(t: seq<nat>)
    requires |t| == 0x7FFF_FFFF
    ensures var a, c := Alloc(2, 0, 0), 0x7FFF_FFFE;
      Holds(t, a, [c]) && Chained(t, a, c, 0, [c]) && View(t, a, c, 0, c) == c + 1
  {
    var a, c := Alloc(2, 0, 0), 0x7FFF_FFFE;
    assert Follows(|t|, [c], 0, View(t, a, c, 0, c));
    RunOfOne([c], 0);
  }

  lemma ChainedAt(t: seq<nat>, a: Alloc, sclust: nat, clen: int, rest: seq<nat>, j: nat)
    requires Chained(t, a, sclust, clen, rest) && j < |rest|
    ensures 2 <= rest[j] < |t|
    ensures var v := View(t, a, sclust, clen, rest[j]);
      if j + 1 < |rest| then v == rest[j + 1] && 2 <= v < |t| else v >= |t|
  {
    assert Follows(|t|, rest, j, View(t, a, sclust, clen, rest[j]));
  }

  lemma ViewFollows(t: seq<nat>, a: Alloc, ch: seq<nat>, i: nat, clen: int)
    requires Holds(t, a, ch) && i < |ch| && |t| <= EOC31
    requires Readable(a, ch, i) && 0 <= clen && (a.stat == 2 ==> clen + 1 == |ch|)
    ensures Follows(|t|, ch, i, View(t, a, ch[0], clen, ch[i]))
  {
    if a.stat == 3 && Sub32(ch[i], ch[0]) < a.nCont {
      var d := Sub32(ch[i], ch[0]);
      assert ch[d] == ch[i];
    }
  }

  // ---------------------------------------------------------------- growing

  /** fill_last_frag(): write the links of the nf clusters that end with lcl, and `term` after it. */
  function FillLast(t: seq<nat>, lcl: nat, nf: nat, term: nat): (r: seq<nat>)
    requires nf <= lcl < |t|
    ensures |r| == |t|
    decreases nf
  {
    if nf == 0 then t
    else FillLast(t[lcl - nf + 1 := (if nf > 1 then lcl - nf + 2 else term) % 0x8000_0000], lcl, nf - 1, term)
  }

  /** One turn of the loop of fill_last_frag(). */
  lemma FillLastTurn(t: seq<nat>, lcl: nat, nf: nat, term: nat)
    requires nf <= lcl < |t|
    ensures FillLast(t, lcl, nf, term) ==
            if nf == 0 then t
            else FillLast(t[lcl - nf + 1 := (if nf > 1 then lcl - nf + 2 else term) % 0x8000_0000], lcl, nf - 1, term)
  {
  }

  lemma {:induction false} FillLastAt(t: seq<nat>, lcl: nat, nf: nat, term: nat, c: nat)
    requires nf <= lcl < |t| <= 0x8000_0000 && c < |t|
    ensures FillLast(t, lcl, nf, term)[c]
         == if nf > 0 && c == lcl then term % 0x8000_0000 else if lcl - nf < c < lcl then c + 1 else t[c]
    decreases nf
  {
    if nf > 0 {
      FillLastAt(t[lcl - nf + 1 := (if nf > 1 then lcl - nf + 2 else term) % 0x8000_0000], lcl, nf - 1, term, c);
    }
  }

  /** fill_first_frag(): write the links of clusters cl .. cl + k - 1. */
  function FillFirst(t: seq<nat>, cl: nat, k: nat): (r: seq<nat>)
    requires cl + k <= |t|
    ensures |r| == |t|
  {
    if k == 0 then t else FillFirst(t, cl, k - 1)[cl + k - 1 := cl + k]
  }

  lemma {:induction false} FillFirstAt(t: seq<nat>, cl: nat, k: nat, c: nat)
    requires cl + k <= |t| && c < |t|
    ensures FillFirst(t, cl, k)[c] == if cl <= c < cl + k then c + 1 else t[c]
  {
    if k > 0 {
      FillFirstAt(t, cl, k - 1, c);
    }
  }

  /** The status create_chain() has when it is about to record the new last cluster. */
  function Fragmented(a: Alloc, first: nat, last: nat, new_: nat): Alloc
    requires first <= last || a.stat != 2
  {
    if a.stat == 2 && new_ != last + 1 then a.(stat := 3, nCont := last - first) else a
  }

  /** Status and table after create_chain() appended cluster new_ to the chain that ends with `last`. */
  function Append(t: seq<nat>, a: Alloc, first: nat, last: nat, new_: nat): (r: (seq<nat>, Alloc))
    requires first <= last || a.stat != 2
    requires a.nFrag <= last < |t| && 0 < last
  {
    var b := Fragmented(a, first, last, new_);
    if b.stat == 2 then (t, b)
    else if new_ == last + 1 then (t, b.(nFrag := if b.nFrag != 0 then b.nFrag + 1 else 2))
    else (FillLast(t, last, if b.nFrag == 0 then 1 else b.nFrag, new_), b.(nFrag := 1))
  }

  lemma LastFragBelow(t: seq<nat>, a: Alloc, ch: seq<nat>)
    requires Holds(t, a, ch)
    ensures ch != [] && a.nFrag < ch[|ch| - 1] && 2 <= ch[|ch| - 1] < |t|
    ensures a.stat == 2 ==> ch[0] <= ch[|ch| - 1] && ch[|ch| - 1] == ch[0] + |ch| - 1
  {
    if a.nFrag > 0 {
      assert ch[|ch| - 1] == ch[|ch| - a.nFrag] + a.nFrag - 1;
    }
  }

  lemma BecomesFragmented(t: seq<nat>, a: Alloc, ch: seq<nat>, new_: nat)
    requires Holds(t, a, ch) && a.stat == 2 && new_ != ch[|ch| - 1] + 1
    requires 2 <= new_ < |t| <= 0x8000_0000 && new_ !in ch
    ensures var last := ch[|ch| - 1];
      last < |t| && ch[0] <= last && Holds(FillLast(t, last, 1, new_), Alloc(3, last - ch[0], 1), ch + [new_])
  {
    hide FillLast;
    var last := ch[|ch| - 1];
    LastFragBelow(t, a, ch);
    FillLastAt(t, last, 1, new_, last);
    TwoRuns(FillLast(t, last, 1, new_), ch, new_);
  }

  /** A run of clusters that leads to one more cluster, which is not the next. */
  lemma TwoRuns(t: seq<nat>, ch: seq<nat>, new_: nat)
    requires ch != [] && InTable(|t|, ch) && Distinct(ch) && Run(ch, 0, |ch|) && t[ch[|ch| - 1]] == new_
    requires 2 <= new_ < |t| && new_ !in ch && new_ != ch[|ch| - 1] + 1
    ensures ch[0] <= ch[|ch| - 1] && Holds(t, Alloc(3, ch[|ch| - 1] - ch[0], 1), ch + [new_])
  {
    var d, last := ch + [new_], ch[|ch| - 1];
    assert last == ch[0] + (|ch| - 1);
    assert forall i | 0 <= i < |ch| :: d[i] == ch[i];
    RunOfOne(d, |ch|);
  }

  /** All but the links of a longer chain whose last fragment has another count. */
  lemma OneLonger(t: seq<nat>, t': seq<nat>, a: Alloc, b: Alloc, ch: seq<nat>, new_: nat)
    requires Holds(t, a, ch) && a.stat != 2 && b == a.(nFrag := b.nFrag)
    requires |t'| == |t| && 2 <= new_ < |t| && new_ !in ch
    ensures InTable(|t'|, ch + [new_])
    ensures OnFat(t', b, ch + [new_]) ==> Holds(t', b, ch + [new_])
  {
    hide OnFat;
    var d := ch + [new_];
    assert forall i | 0 <= i < |ch| :: d[i] == ch[i];
  }

  lemma RunToEnd(ch: seq<nat>, n: nat, new_: nat)
    requires 0 < n <= |ch| && Run(ch, |ch| - n, |ch|) && new_ == ch[|ch| - 1] + 1
    ensures Run(ch + [new_], |ch| - n, |ch| + 1)
  {
    var d := ch + [new_];
    assert forall i | 0 <= i < |ch| :: d[i] == ch[i];
    assert ch[|ch| - 1] == ch[|ch| - n] + (n - 1);
  }

  lemma ExtendsFragment(t: seq<nat>, a: Alloc, ch: seq<nat>, new_: nat)
    requires Holds(t, a, ch) && a.stat != 2 && new_ == ch[|ch| - 1] + 1
    requires new_ < |t| && new_ !in ch
    ensures Holds(t, a.(nFrag := if a.nFrag != 0 then a.nFrag + 1 else 2), ch + [new_])
  {
    var d := ch + [new_];
    var b := a.(nFrag := if a.nFrag != 0 then a.nFrag + 1 else 2);
    OneLonger(t, t, a, b, ch, new_);
    RunOfOne(ch, |ch| - 1);
    RunToEnd(ch, b.nFrag - 1, new_);
    hide Run, Distinct;
    assert forall i | 0 <= i < |ch| :: d[i] == ch[i];
    forall i | FirstLink(b) <= i < |d| - 1 && i < |d| - b.nFrag
      ensures t[d[i]] == d[i + 1]
    {
      assert t[ch[i]] == ch[i + 1];
    }
  }

  /** Closing the last fragment writes every link that was not yet on the FAT. */
  lemma LinksWritten(t: seq<nat>, a: Alloc, ch: seq<nat>, new_: nat, i: nat)
    requires Holds(t, a, ch) && a.stat != 2 && FirstLink(a) <= i < |ch|
    requires 2 <= new_ < |t| <= 0x8000_0000
    ensures var last, nf := ch[|ch| - 1], if a.nFrag == 0 then 1 else a.nFrag;
      nf <= last < |t| && FillLast(t, last, nf, new_)[ch[i]] == if i + 1 < |ch| then ch[i + 1] else new_
  {
    var last, nf := ch[|ch| - 1], if a.nFrag == 0 then 1 else a.nFrag;
    LastFragBelow(t, a, ch);
    FillLastAt(t, last, nf, new_, ch[i]);
    if i < |ch| - nf {
      NotInLastFrag(ch, nf, i);
    } else {
      assert ch[i] == ch[|ch| - nf] + (i - (|ch| - nf));
      assert last == ch[|ch| - nf] + nf - 1;
    }
  }

  lemma StartsFragment(t: seq<nat>, a: Alloc, ch: seq<nat>, new_: nat)
    requires Holds(t, a, ch) && a.stat != 2
    requires 2 <= new_ < |t| <= 0x8000_0000 && new_ !in ch
    ensures var last, nf := ch[|ch| - 1], if a.nFrag == 0 then 1 else a.nFrag;
      nf <= last < |t| && Holds(FillLast(t, last, nf, new_), a.(nFrag := 1), ch + [new_])
  {
    var last, nf := ch[|ch| - 1], if a.nFrag == 0 then 1 else a.nFrag;
    LastFragBelow(t, a, ch);
    var t' := FillLast(t, last, nf, new_);
    var d := ch + [new_];
    OneLonger(t, t', a, a.(nFrag := 1), ch, new_);
    RunOfOne(d, |ch|);
    hide Run, Distinct, FillLast;
    forall i | FirstLink(a) <= i < |ch|
      ensures t'[d[i]] == d[i + 1]
    {
      LinksWritten(t, a, ch, new_, i);
    }
  }

  lemma NotInLastFrag(ch: seq<nat>, nf: nat, i: nat)
    requires Distinct(ch) && 1 <= nf && i < |ch| - nf && Run(ch, |ch| - nf, |ch|)
    ensures !(ch[|ch| - 1] - nf < ch[i] <= ch[|ch| - 1])
  {
    var last := ch[|ch| - 1];
    assert last == ch[|ch| - nf] + nf - 1;
    if last - nf < ch[i] <= last {
      InRun(ch, |ch| - nf, |ch|, ch[i]);
    }
  }

  /** Clusters of the last and the first fragment are clusters of the chain. */
  lemma FragmentsInChain(t: seq<nat>, a: Alloc, ch: seq<nat>, c: nat)
    requires Holds(t, a, ch)
    ensures a.stat != 2 && ch[|ch| - 1] - (if a.nFrag == 0 then 1 else a.nFrag) < c <= ch[|ch| - 1] ==> c in ch
    ensures a.stat == 3 && ch[0] <= c < ch[0] + a.nCont ==> c in ch
  {
    var last, nf := ch[|ch| - 1], if a.nFrag == 0 then 1 else a.nFrag;
    if a.stat != 2 && last - nf < c <= last {
      assert Run(ch, |ch| - nf, |ch|);
      assert last == ch[|ch| - nf] + nf - 1;
      InRun(ch, |ch| - nf, |ch|, c);
    }
    if a.stat == 3 && ch[0] <= c < ch[0] + a.nCont {
      InRun(ch, 0, Head(a), c);
    }
  }

  /** A stretch changes no entry of another chain. */
  lemma AppendElsewhere(t: seq<nat>, a: Alloc, ch: seq<nat>, new_: nat, c: nat)
    requires Holds(t, a, ch) && 2 <= new_ < |t| <= 0x8000_0000 && c < |t| && c !in ch
    ensures a.nFrag < ch[|ch| - 1] && (ch[0] <= ch[|ch| - 1] || a.stat != 2)
    ensures Append(t, a, ch[0], ch[|ch| - 1], new_).0[c] == t[c]
  {
    LastFragBelow(t, a, ch);
    var last := ch[|ch| - 1];
    var b := Fragmented(a, ch[0], last, new_);
    if b.stat != 2 && new_ != last + 1 {
      var nf := if b.nFrag == 0 then 1 else b.nFrag;
      FillLastAt(t, last, nf, new_, c);
      assert last in ch;
      if a.stat != 2 {
        FragmentsInChain(t, a, ch, c);
      }
    }
  }

  /** Deferred growth refines eager growth: whatever the status, it describes the chain with the new
      cluster at the end. */
  lemma AppendHolds(t: seq<nat>, a: Alloc, ch: seq<nat>, new_: nat)
    requires Holds(t, a, ch) && 2 <= new_ < |t| <= 0x8000_0000 && new_ !in ch
    ensures a.nFrag < ch[|ch| - 1] && (ch[0] <= ch[|ch| - 1] || a.stat != 2)
    ensures var r := Append(t, a, ch[0], ch[|ch| - 1], new_); |r.0| == |t| && Holds(r.0, r.1, ch + [new_])
  {
    LastFragBelow(t, a, ch);
    var last := ch[|ch| - 1];
    if a.stat == 2 && new_ == last + 1 {
      var d := ch + [new_];
      assert forall i | 0 <= i < |ch| :: d[i] == ch[i];
    } else if a.stat == 2 {
      BecomesFragmented(t, a, ch, new_);
    } else if new_ == last + 1 {
      ExtendsFragment(t, a, ch, new_);
    } else {
      StartsFragment(t, a, ch, new_);
    }
  }

  // ---------------------------------------------------------------- writing what was deferred

  /** Writing one link of the last fragment: the status still describes the chain. */
  lemma FillLastStep(t: seq<nat>, a: Alloc, ch: seq<nat>)
    requires Holds(t, a, ch) && a.nFrag > 0 && |t| <= EOC31
    ensures var last := ch[|ch| - 1];
      var c := last - a.nFrag + 1;
      0 <= c < |t| &&
      Holds(t[c := (if a.nFrag > 1 then c + 1 else 0xFFFF_FFFF) % 0x8000_0000], a.(nFrag := a.nFrag - 1), ch)
  {
    hide Run, Distinct, OnFat;
    FillLastLink(t, a, ch, if a.nFrag > 1 then ch[|ch| - 1] - a.nFrag + 2 else EOC31);
  }

  lemma FillLastLink(t: seq<nat>, a: Alloc, ch: seq<nat>, v: int)
    requires Holds(t, a, ch) && a.nFrag > 0 && |t| <= EOC31
    requires v == if a.nFrag > 1 then ch[|ch| - 1] - a.nFrag + 2 else EOC31
    ensures var c := ch[|ch| - 1] - a.nFrag + 1;
      0 <= c < |t| && 0 <= v && Holds(t[c := v], a.(nFrag := a.nFrag - 1), ch)
  {
    hide Holds, OnFat, Distinct, InTable;
    FragmentIs(t, a, ch);
    var k := |ch| - a.nFrag;
    var c := ch[k];
    SameClusters(t, t[c := v], a, a.(nFrag := a.nFrag - 1), ch);
    LinkOnFat(t, a, ch, v);
  }

  /** The last fragment, and the status that a chain with one has. */
  lemma FragmentIs(t: seq<nat>, a: Alloc, ch: seq<nat>)
    requires Holds(t, a, ch) && a.nFrag > 0
    ensures 0 <= |ch| - a.nFrag < |ch| && a.stat != 2 && InTable(|t|, ch) && OnFat(t, a, ch)
    ensures ch[|ch| - a.nFrag] == ch[|ch| - 1] - a.nFrag + 1 < |t| && Distinct(ch)
    ensures a.nFrag > 1 ==> ch[|ch| - a.nFrag + 1] == ch[|ch| - a.nFrag] + 1
  {
    var k := |ch| - a.nFrag;
    assert Run(ch, k, |ch|);
    assert ch[|ch| - 1] == ch[k] + a.nFrag - 1;
    assert a.nFrag > 1 ==> ch[k + 1] == ch[k] + 1;
  }

  lemma LinkOnFat(t: seq<nat>, a: Alloc, ch: seq<nat>, v: nat)
    requires 0 < |ch| && InTable(|t|, ch) && Distinct(ch) && OnFat(t, a, ch) && 0 < a.nFrag && |t| <= EOC31
    requires v == if a.nFrag > 1 then ch[|ch| - a.nFrag + 1] else EOC31
    ensures OnFat(t[ch[|ch| - a.nFrag] := v], a.(nFrag := a.nFrag - 1), ch)
  {
    var k := |ch| - a.nFrag;
    var t' := t[ch[k] := v];
    assert forall i | 0 <= i < |ch| && i != k :: t'[ch[i]] == t[ch[i]];
    RunTail(ch, k);
    hide Distinct, Run;
  }

  lemma RunTail(ch: seq<nat>, k: int)
    requires Run(ch, k, |ch|) && k < |ch|
    ensures Run(ch, k + 1, |ch|)
  {
  }

  /** All but the links of a chain whose last fragment has another count. */
  lemma SameClusters(t: seq<nat>, t': seq<nat>, a: Alloc, b: Alloc, ch: seq<nat>)
    requires Holds(t, a, ch) && a.stat != 2 && b == a.(nFrag := b.nFrag) && |t'| == |t|
    ensures InTable(|t'|, ch)
    ensures OnFat(t', b, ch) ==> Holds(t', b, ch)
  {
    hide OnFat;
  }

  /** fill_first_frag() never spoils the description of the chain, and when it is done the FAT holds all
      links of the first fragment. */
  lemma FillFirstHolds(t: seq<nat>, a: Alloc, ch: seq<nat>, k: nat)
    requires Holds(t, a, ch) && a.stat == 3 && k <= a.nCont
    ensures ch[0] + a.nCont < |t| && Holds(FillFirst(t, ch[0], k), a, ch)
    ensures k == a.nCont ==> Holds(FillFirst(t, ch[0], k), a.(stat := 0), ch)
  {
    assert ch[a.nCont] == ch[0] + a.nCont;
    var t' := FillFirst(t, ch[0], k);
    forall i | 0 <= i < |ch|
      ensures t'[ch[i]] == if i < k then ch[i + 1] else t[ch[i]]
    {
      FillFirstAt(t, ch[0], k, ch[i]);
      if i < k {
        assert ch[i] == ch[0] + i && ch[i + 1] == ch[0] + (i + 1);
      } else if ch[0] <= ch[i] < ch[0] + k {
        InRun(ch, 0, Head(a), ch[i]);
      }
    }
  }

  /** When nothing is left to write, the object is in one piece or is an ordinary FAT chain. */
  lemma NothingDeferred(t: seq<nat>, a: Alloc, ch: seq<nat>)
    requires Holds(t, a, ch) && a.stat != 3 && a.nFrag == 0
    ensures if a.stat == 2 then Run(ch, 0, |ch|) else IsChain(t, ch)
  {
  }

  /** The table after fill_first_frag() and fill_last_frag(). */
  function Flushed(t: seq<nat>, a: Alloc, ch: seq<nat>): (r: seq<nat>)
    requires ch != [] && a.nFrag <= ch[|ch| - 1] < |t| && (a.stat == 3 ==> ch[0] + a.nCont <= |t|)
  {
    FillLast(if a.stat == 3 then FillFirst(t, ch[0], a.nCont) else t, ch[|ch| - 1], a.nFrag, 0xFFFF_FFFF)
  }

  /** The two fills in a row leave a contiguous object, or its clusters as an ordinary FAT chain. */
  lemma FlushedIsChain(t: seq<nat>, a: Alloc, ch: seq<nat>)
    requires Holds(t, a, ch) && |t| <= EOC31
    ensures a.nFrag <= ch[|ch| - 1] < |t| && (a.stat == 3 ==> ch[0] + a.nCont <= |t|)
    ensures if a.stat == 2 then Run(ch, 0, |ch|) else IsChain(Flushed(t, a, ch), ch)
  {
    LastFragBelow(t, a, ch);
    var t1, b := t, a;
    if a.stat == 3 {
      FillFirstHolds(t, a, ch, a.nCont);
      t1, b := FillFirst(t, ch[0], a.nCont), a.(stat := 0);
    }
    FilledHolds(t1, b, ch);
    NothingDeferred(FillLast(t1, ch[|ch| - 1], b.nFrag, 0xFFFF_FFFF), b.(nFrag := 0), ch);
  }

  /** fill_last_frag() from any status. */
  lemma {:induction false} FilledHolds(t: seq<nat>, a: Alloc, ch: seq<nat>)
    requires Holds(t, a, ch) && |t| <= EOC31
    ensures a.nFrag <= ch[|ch| - 1] < |t|
    ensures Holds(FillLast(t, ch[|ch| - 1], a.nFrag, 0xFFFF_FFFF), a.(nFrag := 0), ch)
    decreases a.nFrag
  {
    hide Holds;
    LastFragBelow(t, a, ch);
    if a.nFrag > 0 {
      var last, nf := ch[|ch| - 1], a.nFrag;
      FillLastStep(t, a, ch);
      FilledHolds(t[last - nf + 1 := (if nf > 1 then last - nf + 2 else 0xFFFF_FFFF) % 0x8000_0000],
        a.(nFrag := nf - 1), ch);
    }
  }

  /** One stretch takes the table and the status to t' and a'. */
  ghost predicate Stretched(t: seq<nat>, a: Alloc, first: nat, last: nat, new_: nat, t': seq<nat>, a': Alloc) {
    && (first <= last || a.stat != 2) && a.nFrag <= last < |t| && 0 < last
    && Append(t, a, first, last, new_) == (t', a')
  }

  /** Any number of stretches: clusters ch taken one after the other, each free before, through the tables ts
      and the statuses sts, from an object of one cluster. */
  ghost predicate Stretches(ts: seq<seq<nat>>, sts: seq<Alloc>, ch: seq<nat>) {
    && |ts| == |sts| == |ch| > 0
    && |ts[0]| <= EOC31 && Holds(ts[0], sts[0], ch[..1])
    && (forall i | 0 < i < |ch| :: 2 <= ch[i] < |ts[0]| && ch[i] !in ch[..i])
    && (forall i | 1 <= i < |ch| :: Stretched(ts[i - 1], sts[i - 1], ch[0], ch[i - 1], ch[i], ts[i], sts[i]))
  }

  lemma {:induction false} StretchesHold(ts: seq<seq<nat>>, sts: seq<Alloc>, ch: seq<nat>, i: nat)
    requires Stretches(ts, sts, ch) && i < |ch|
    ensures |ts[i]| == |ts[0]| && Holds(ts[i], sts[i], ch[..i + 1])
    decreases i
  {
    hide Holds, Append;
    if i > 0 {
      StretchesHold(ts, sts, ch, i - 1);
      assert Stretched(ts[i - 1], sts[i - 1], ch[0], ch[i - 1], ch[i], ts[i], sts[i]);
      AppendHolds(ts[i - 1], sts[i - 1], ch[..i], ch[i]);
      assert ch[..i] + [ch[i]] == ch[..i + 1];
    }
  }

  /** Deferred chain writing refines an eagerly linked chain: after any run of stretches, the two fills leave
      a contiguous object, or the clusters on the FAT, in the order in which they were taken. */
  lemma DeferredIsEager(ts: seq<seq<nat>>, sts: seq<Alloc>, ch: seq<nat>)
    requires Stretches(ts, sts, ch)
    ensures var t, a := ts[|ch| - 1], sts[|ch| - 1];
      && a.nFrag <= ch[|ch| - 1] < |t| && (a.stat == 3 ==> ch[0] + a.nCont <= |t|)
      && if a.stat == 2 then Run(ch, 0, |ch|) else IsChain(Flushed(t, a, ch), ch)
  {
    StretchesHold(ts, sts, ch, |ch| - 1);
    assert ch[..|ch|] == ch;
    FlushedIsChain(ts[|ch| - 1], sts[|ch| - 1], ch);
  }

  // ---------------------------------------------------------------- cutting

  /** Cutting the chain after k > 0 clusters: what remains is described by the same status, if its first
      fragment was not cut, and as contiguous if it lies in one piece. */
  lemma CutHolds(t: seq<nat>, a: Alloc, ch: seq<nat>, k: nat)
    requires Holds(t, a, ch) && a.nFrag == 0 && 0 < k < |ch| && |t| <= EOC31
    ensures Run(ch[..k], 0, k) ==> Holds(t, Alloc(2, a.nCont, 0), ch[..k])
    ensures a.stat == 2 ==> Run(ch[..k], 0, k)
    ensures a.stat == 0 || (a.stat == 3 && k > a.nCont + 1) ==> Holds(t[ch[k - 1] := EOC31], a, ch[..k])
  {
    if a.stat == 0 || (a.stat == 3 && k > a.nCont + 1) {
      CutOnFat(t, a, ch, k);
    }
  }

  lemma CutOnFat(t: seq<nat>, a: Alloc, ch: seq<nat>, k: nat)
    requires Holds(t, a, ch) && a.stat != 2 && a.nFrag == 0 && 0 < k < |ch| && Head(a) <= k && |t| <= EOC31
    ensures InTable(|t|, ch[..k]) && OnFat(t[ch[k - 1] := EOC31], a, ch[..k])
  {
    var h := ch[..k];
    var t' := t[ch[k - 1] := EOC31];
    forall i | FirstLink(a) <= i < k - 1
      ensures t'[h[i]] == h[i + 1]
    {
      assert t[ch[i]] == ch[i + 1];
    }
  }

  /** remove_chain() tells by its number whether a cluster lies in the first fragment. */
  lemma InFirstFragment(t: seq<nat>, a: Alloc, ch: seq<nat>, i: nat)
    requires Holds(t, a, ch) && a.stat == 3 && i < |ch|
    ensures ch[0] <= ch[i] <= ch[0] + a.nCont <==> i <= a.nCont
    ensures i <= a.nCont ==> Run(ch[..i + 1], 0, i + 1)
  {
    if ch[0] <= ch[i] <= ch[0] + a.nCont {
      InRun(ch, 0, Head(a), ch[i]);
    }
  }

  /** Marking the end of the part that stays does not change what get_fat() says beyond it. */
  lemma ViewBeyondCut(t: seq<nat>, a: Alloc, ch: seq<nat>, k: nat, i: nat, clen: int, v: nat)
    requires Holds(t, a, ch) && 0 < k <= i < |ch|
    ensures View(t[ch[k - 1] := v], a, ch[0], clen, ch[i]) == View(t, a, ch[0], clen, ch[i])
  {
  }
}
