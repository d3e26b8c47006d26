/** The bottom-up merge sort of a doubly linked list, in place (utlist.h). */
module ListSort {

  class Node<T> {
    const elem: T
    var next: Node?<T>
    var prev: Node?<T>

    constructor (e: T)
      ensures elem == e && next == null && prev == null
    {
      elem, next, prev := e, null, null;
    }
  }

  // ---------------------------------------------------------------- on sequences

  /** The elements are compared by a total preorder. */
  ghost predicate Preorder<T(!new)>(cmp: (T, T) -> int) {
    && (forall x, y :: cmp(x, y) <= 0 || cmp(y, x) <= 0)
    && (forall x, y, z :: cmp(x, y) <= 0 && cmp(y, z) <= 0 ==> cmp(x, z) <= 0)
  }

  /** x comes before y: it is smaller, or equal and of smaller rank. */
  ghost predicate Less<T>(cmp: (T, T) -> int, rank: Node<T> -> int, x: Node<T>, y: Node<T>) {
    cmp(x.elem, y.elem) <= 0 && (cmp(y.elem, x.elem) <= 0 ==> rank(x) < rank(y))
  }

  /** In order, and equal elements in the order of their ranks. */
  ghost predicate Sorted<T>(cmp: (T, T) -> int, rank: Node<T> -> int, s: seq<Node<T>>) {
    forall i, j | 0 <= i < j < |s| :: Less(cmp, rank, s[i], s[j])
  }

  ghost predicate RanksBelow<T>(rank: Node<T> -> int, a: seq<Node<T>>, b: seq<Node<T>>) {
    forall i, j | 0 <= i < |a| && 0 <= j < |b| :: rank(a[i]) < rank(b[j])
  }

  function Take<A>(s: seq<A>, k: nat): seq<A> {
    if k <= |s| then s[..k] else s
  }

  function Drop<A>(s: seq<A>, k: nat): seq<A> {
    if k <= |s| then s[k..] else []
  }

  /** Sorted runs of k elements, the ranks of one below those of the next. */
  ghost predicate InRuns<T>(cmp: (T, T) -> int, rank: Node<T> -> int, s: seq<Node<T>>, k: nat)
    requires 0 < k
    decreases |s|
  {
    && Sorted(cmp, rank, Take(s, k)) && RanksBelow(rank, Take(s, k), Drop(s, k))
    && (|s| > k ==> InRuns(cmp, rank, Drop(s, k), k))
  }

  /** Two runs merged; equal elements are taken from the first. */
  ghost function Merge<T>(cmp: (T, T) -> int, a: seq<Node<T>>, b: seq<Node<T>>): (m: seq<Node<T>>)
    ensures |m| == |a| + |b| && multiset(m) == multiset(a) + multiset(b)
  {
    if a == [] then b
    else if b == [] then a
    else if cmp(a[0].elem, b[0].elem) <= 0 then
      assert a == [a[0]] + a[1..];
      [a[0]] + Merge(cmp, a[1..], b)
    else
      assert b == [b[0]] + b[1..];
      [b[0]] + Merge(cmp, a, b[1..])
  }

  /** Pairs of runs of k elements merged. */
  ghost function Pass<T>(cmp: (T, T) -> int, s: seq<Node<T>>, k: nat): (m: seq<Node<T>>)
    requires 0 < k
    ensures |m| == |s| && multiset(m) == multiset(s)
    decreases |s|
  {
    if s == [] then []
    else
      var a, b, c := Take(s, k), Take(Drop(s, k), k), Drop(s, 2 * k);
      assert s == a + b + c;
      Merge(cmp, a, b) + Pass(cmp, c, k)
  }

  lemma InMerge<T>(cmp: (T, T) -> int, a: seq<Node<T>>, b: seq<Node<T>>, x: Node<T>)
    ensures x in Merge(cmp, a, b) <==> x in a || x in b
  {
    assert x in Merge(cmp, a, b) <==> x in multiset(Merge(cmp, a, b));
  }

  lemma InPass<T>(cmp: (T, T) -> int, s: seq<Node<T>>, k: nat, x: Node<T>)
    requires 0 < k
    ensures x in Pass(cmp, s, k) <==> x in s
  {
    assert x in Pass(cmp, s, k) <==> x in multiset(Pass(cmp, s, k));
  }

  lemma HeadFirst<T(!new)>(cmp: (T, T) -> int, rank: Node<T> -> int, x: Node<T>, m: seq<Node<T>>)
    requires Sorted(cmp, rank, m) && forall y | y in m :: Less(cmp, rank, x, y)
    ensures Sorted(cmp, rank, [x] + m)
  {
  }

  lemma {:induction false} MergeSorts<T(!new)>(cmp: (T, T) -> int, rank: Node<T> -> int, a: seq<Node<T>>,
    b: seq<Node<T>>)
    requires Preorder(cmp) && Sorted(cmp, rank, a) && Sorted(cmp, rank, b) && RanksBelow(rank, a, b)
    ensures Sorted(cmp, rank, Merge(cmp, a, b))
    decreases |a| + |b|
  {
    if a != [] && b != [] {
      if cmp(a[0].elem, b[0].elem) <= 0 {
        MergeSorts(cmp, rank, a[1..], b);
        forall y | y in Merge(cmp, a[1..], b)
          ensures Less(cmp, rank, a[0], y)
        {
          InMerge(cmp, a[1..], b, y);
          if y in b {
            FirstBelow(cmp, rank, a[0], b, y);
          }
        }
        HeadFirst(cmp, rank, a[0], Merge(cmp, a[1..], b));
      } else {
        MergeSorts(cmp, rank, a, b[1..]);
        forall y | y in Merge(cmp, a, b[1..])
          ensures Less(cmp, rank, b[0], y)
        {
          InMerge(cmp, a, b[1..], y);
          if y in a {
            StrictlyBelow(cmp, rank, b[0], a, y);
          }
        }
        HeadFirst(cmp, rank, b[0], Merge(cmp, a, b[1..]));
      }
    }
  }

  lemma FirstBelow<T(!new)>(cmp: (T, T) -> int, rank: Node<T> -> int, x: Node<T>, b: seq<Node<T>>, y: Node<T>)
    requires Preorder(cmp) && Sorted(cmp, rank, b) && b != [] && y in b
    requires cmp(x.elem, b[0].elem) <= 0 && forall j | 0 <= j < |b| :: rank(x) < rank(b[j])
    ensures Less(cmp, rank, x, y)
  {
    var j :| 0 <= j < |b| && b[j] == y;
    if j > 0 {
      assert Less(cmp, rank, b[0], b[j]);
    }
  }

  lemma StrictlyBelow<T(!new)>(cmp: (T, T) -> int, rank: Node<T> -> int, x: Node<T>, a: seq<Node<T>>, y: Node<T>)
    requires Preorder(cmp) && Sorted(cmp, rank, a) && a != [] && y in a && !(cmp(a[0].elem, x.elem) <= 0)
    ensures Less(cmp, rank, x, y)
  {
    var j :| 0 <= j < |a| && a[j] == y;
    if j > 0 {
      assert Less(cmp, rank, a[0], a[j]);
    }
  }

  lemma RunsSplit<T(!new)>(cmp: (T, T) -> int, rank: Node<T> -> int, s: seq<Node<T>>, k: nat)
    requires 0 < k && InRuns(cmp, rank, s, k)
    ensures var a, b, c := Take(s, k), Take(Drop(s, k), k), Drop(s, 2 * k);
      && Sorted(cmp, rank, a) && Sorted(cmp, rank, b)
      && RanksBelow(rank, a, b) && RanksBelow(rank, a, c) && RanksBelow(rank, b, c)
      && (|s| > 2 * k ==> InRuns(cmp, rank, c, k))
  {
    assert |s| > k ==> Drop(Drop(s, k), k) == Drop(s, 2 * k);
    assert |s| > k ==> InRuns(cmp, rank, Drop(s, k), k);
  }

  lemma RunsJoin<T(!new)>(cmp: (T, T) -> int, rank: Node<T> -> int, m: seq<Node<T>>, r: seq<Node<T>>, k: nat)
    requires 0 < k && Sorted(cmp, rank, m) && RanksBelow(rank, m, r) && |m| <= k
    requires r != [] ==> |m| == k && InRuns(cmp, rank, r, k)
    ensures InRuns(cmp, rank, m + r, k)
  {
    assert Take(m + r, k) == m && Drop(m + r, k) == r;
  }

  lemma MergeBelow<T(!new)>(cmp: (T, T) -> int, rank: Node<T> -> int, a: seq<Node<T>>, b: seq<Node<T>>,
    c: seq<Node<T>>, k: nat)
    requires RanksBelow(rank, a, c) && RanksBelow(rank, b, c) && 0 < k
    ensures RanksBelow(rank, Merge(cmp, a, b), Pass(cmp, c, k))
  {
    var m, r := Merge(cmp, a, b), Pass(cmp, c, k);
    forall i, j | 0 <= i < |m| && 0 <= j < |r|
      ensures rank(m[i]) < rank(r[j])
    {
      InMerge(cmp, a, b, m[i]);
      InPass(cmp, c, k, r[j]);
    }
  }

  /** A pass makes the sorted runs twice as long. */
  lemma {:induction false} PassDoubles<T(!new)>(cmp: (T, T) -> int, rank: Node<T> -> int, s: seq<Node<T>>, k: nat)
    requires 0 < k && Preorder(cmp) && InRuns(cmp, rank, s, k)
    ensures InRuns(cmp, rank, Pass(cmp, s, k), 2 * k)
    decreases |s|
  {
    hide InRuns, Sorted, RanksBelow, Merge;
    if s == [] {
      NothingInRuns(cmp, rank, 2 * k);
    } else {
      var a, b, c := Take(s, k), Take(Drop(s, k), k), Drop(s, 2 * k);
      RunsSplit(cmp, rank, s, k);
      MergeSorts(cmp, rank, a, b);
      MergeBelow(cmp, rank, a, b, c, k);
      if |s| > 2 * k {
        PassDoubles(cmp, rank, c, k);
      }
      RunsJoin(cmp, rank, Merge(cmp, a, b), Pass(cmp, c, k), 2 * k);
    }
  }

  lemma NothingInRuns<T>(cmp: (T, T) -> int, rank: Node<T> -> int, k: nat)
    requires 0 < k
    ensures InRuns(cmp, rank, [], k)
  {
  }

  // ---------------------------------------------------------------- on linked nodes

  ghost predicate NoneTwice<A>(s: seq<A>) {
    forall i, j | 0 <= i < j < |s| :: s[i] != s[j]
  }

  /** The node of s after number j, or null. */
  function At<T>(s: seq<Node<T>>, j: nat): Node?<T> {
    if j < |s| then s[j] else null
  }

  /** The nodes of s from lo up to hi still lead to the next one of s. */
  ghost predicate LeadsOn<T>(s: seq<Node<T>>, lo: nat, hi: nat)
    reads s
  {
    forall j | lo <= j < hi && j < |s| :: s[j].next == At(s, j + 1)
  }

  /** The nodes `out` are linked in both directions, as far as they are: the head has no predecessor yet, and
      the tail no successor. */
  ghost predicate Built<T>(list: Node?<T>, tail: Node?<T>, out: seq<Node<T>>)
    reads out
  {
    && list == At(out, 0) && tail == (if out == [] then null else out[|out| - 1])
    && (forall i | 0 <= i < |out| - 1 :: out[i].next == out[i + 1])
    && (forall i | 1 <= i < |out| :: out[i].prev == out[i - 1])
  }

  /** Append node e to what was built. */
  method AppendNode<T>(list: Node?<T>, tail: Node?<T>, e: Node<T>, ghost out: seq<Node<T>>) returns (head: Node?<T>)
    requires Built(list, tail, out) && e !in out && NoneTwice(out)
    modifies out`next, e`prev
    ensures Built(head, e, out + [e])
    ensures forall x | x in out && x != tail :: x.next == old(x.next)
  {
    head := list;
    if tail != null {
      tail.next := e;
    } else {
      head := e;
    }
    e.prev := tail;
  }

  /** What was built, with what is left of the two runs merged behind it. */
  ghost function Goal<T>(cmp: (T, T) -> int, s: seq<Node<T>>, i: nat, pe: nat, j: nat, qe: nat,
    out: seq<Node<T>>): seq<Node<T>>
    requires i <= pe <= |s| && j <= qe <= |s|
  {
    out + Merge(cmp, s[i..pe], s[j..qe])
  }

  lemma GoalStep<T>(cmp: (T, T) -> int, s: seq<Node<T>>, i: nat, pe: nat, j: nat, qe: nat, out: seq<Node<T>>)
    requires i <= pe <= j <= qe <= |s|
    ensures i < pe && (j == qe || cmp(s[i].elem, s[j].elem) <= 0) ==>
              Goal(cmp, s, i + 1, pe, j, qe, out + [s[i]]) == Goal(cmp, s, i, pe, j, qe, out)
    ensures j < qe && (i == pe || !(cmp(s[i].elem, s[j].elem) <= 0)) ==>
              Goal(cmp, s, i, pe, j + 1, qe, out + [s[j]]) == Goal(cmp, s, i, pe, j, qe, out)
    ensures i == pe && j == qe ==> Goal(cmp, s, i, pe, j, qe, out) == out
  {
    assert i < pe ==> s[i..pe][1..] == s[i + 1..pe];
    assert j < qe ==> s[j..qe][1..] == s[j + 1..qe];
    if i < pe && (j == qe || cmp(s[i].elem, s[j].elem) <= 0) {
      Regroup(out, [s[i]], Merge(cmp, s[i + 1..pe], s[j..qe]));
    } else if j < qe {
      Regroup(out, [s[j]], Merge(cmp, s[i..pe], s[j + 1..qe]));
    }
  }

  /** What is left of the list s, from number i to pe and from j on, is linked as before and not yet in out. */
  ghost predicate Left<T>(s: seq<Node<T>>, i: nat, pe: nat, j: nat, out: seq<Node<T>>)
    requires pe <= j <= |s|
    reads s
  {
    && LeadsOn(s, i, pe) && LeadsOn(s, j, |s|)
    && (forall k | 0 <= k < |out| :: out[k] in s)
    && (forall k | (i <= k < pe || j <= k < |s|) :: s[k] !in out)
  }

  /** Take node number k, one of those left, to the end of what was built. */
  method Move<T>(list: Node?<T>, tail: Node?<T>, ghost s: seq<Node<T>>, ghost i: nat, ghost pe: nat, ghost j: nat,
      ghost k: nat, e: Node<T>, ghost out: seq<Node<T>>)
    returns (head: Node?<T>)
    requires NoneTwice(s) && NoneTwice(out) && i <= pe <= j <= |s| && Left(s, i, pe, j, out) && Built(list, tail, out)
    requires ((i < pe && k == i) || (j < |s| && k == j)) && e == s[k]
    modifies s
    ensures Built(head, e, out + [e]) && NoneTwice(out + [e])
    ensures if k == i && i < pe then Left(s, i + 1, pe, j, out + [e]) else Left(s, i, pe, j + 1, out + [e])
  {
    head := AppendNode(list, tail, e, out);
  }

  lemma NextLeft<T>(s: seq<Node<T>>, i: nat, pe: nat, j: nat, out: seq<Node<T>>)
    requires pe <= j <= |s| && Left(s, i, pe, j, out)
    ensures (i < pe ==> s[i].next == At(s, i + 1)) && (j < |s| ==> s[j].next == At(s, j + 1))
  {
  }

  lemma NoneLeft<T>(s: seq<Node<T>>, pe: nat, j: nat, out: seq<Node<T>>)
    requires pe <= j <= |s| && Left(s, pe, pe, j, out)
    ensures Left(s, j, j, j, out)
  {
  }

  /** Merge the run of psize nodes from p, which is followed by q, with the next qsize nodes or fewer. */
  method MergeRuns<T>(cmp: (T, T) -> int, p0: Node?<T>, q0: Node?<T>, psize0: nat, qsize0: nat,
      list0: Node?<T>, tail0: Node?<T>, ghost s: seq<Node<T>>, ghost pi: nat, ghost out0: seq<Node<T>>)
    returns (q: Node?<T>, list: Node?<T>, tail: Node?<T>, ghost out: seq<Node<T>>)
    requires NoneTwice(s) && NoneTwice(out0) && pi + psize0 <= |s| && Left(s, pi, pi + psize0, pi + psize0, out0)
    requires Built(list0, tail0, out0) && p0 == At(s, pi) && q0 == At(s, pi + psize0)
    modifies s
    ensures var pe := pi + psize0; var qe := if pe + qsize0 <= |s| then pe + qsize0 else |s|;
      && out == Goal(cmp, s, pi, pe, pe, qe, out0) && q == At(s, qe)
      && NoneTwice(out) && Left(s, qe, qe, qe, out) && Built(list, tail, out)
  {
    hide Left, Built, NoneTwice, Goal, LeadsOn;
    var p, psize, qsize := p0, psize0, qsize0;
    q, list, tail, out := q0, list0, tail0, out0;
    ghost var pe := pi + psize0;
    ghost var qe := if pe + qsize0 <= |s| then pe + qsize0 else |s|;
    ghost var i, j := pi, pe;
    while psize > 0 || (qsize > 0 && q != null)
      invariant pi <= i <= pe <= j <= qe && psize == pe - i && qsize == qsize0 - (j - pe)
      invariant (i < pe ==> p == s[i]) && q == At(s, j)
      invariant NoneTwice(out) && Left(s, i, pe, j, out) && Built(list, tail, out)
      invariant Goal(cmp, s, i, pe, j, qe, out) == Goal(cmp, s, pi, pe, pe, qe, out0)
      decreases psize + qsize
    {
      GoalStep(cmp, s, i, pe, j, qe, out);
      NextLeft(s, i, pe, j, out);
      var e;
      ghost var first := psize != 0 && (qsize == 0 || q == null || cmp(p.elem, q.elem) <= 0);
      if psize == 0 {
        e, q, qsize := q, q.next, qsize - 1;
      } else if qsize == 0 || q == null {
        e, p, psize := p, p.next, psize - 1;
      } else if cmp(p.elem, q.elem) <= 0 {
        e, p, psize := p, p.next, psize - 1;
      } else {
        e, q, qsize := q, q.next, qsize - 1;
      }
      list := Move(list, tail, s, i, pe, j, if first then i else j, e, out);
      tail := e;
      out := out + [e];
      if first {
        i := i + 1;
      } else {
        j := j + 1;
      }
    }
    GoalStep(cmp, s, i, pe, j, qe, out);
    NoneLeft(s, pe, j, out);
  }

  /** The length of the run from p, at most insize, and what follows it. */
  method SplitRun<T>(p: Node<T>, insize: nat, ghost s: seq<Node<T>>, ghost pi: nat) returns (psize: nat, q: Node?<T>)
    requires 0 < insize && pi < |s| && p == s[pi] && LeadsOn(s, pi, |s|)
    ensures psize == (if insize <= |s| - pi then insize else |s| - pi) && q == At(s, pi + psize)
  {
    q, psize := p, 0;
    var i := 0;
    while i < insize
      invariant i == psize <= insize && pi + psize < |s| + (if psize == insize then 1 else 0) && q == At(s, pi + psize)
    {
      psize := psize + 1;
      q := q.next;
      if q == null {
        break;
      }
      i := i + 1;
    }
  }

  /** What was built, with a pass over the rest of the list behind it. */
  ghost function PassGoal<T>(cmp: (T, T) -> int, s: seq<Node<T>>, pi: nat, k: nat, out: seq<Node<T>>): seq<Node<T>>
    requires 0 < k && pi <= |s|
  {
    out + Pass(cmp, s[pi..], k)
  }

  lemma PassStep<T>(cmp: (T, T) -> int, s: seq<Node<T>>, pi: nat, k: nat, out: seq<Node<T>>)
    requires 0 < k && pi < |s|
    ensures var pe := if k <= |s| - pi then pi + k else |s|; var qe := if pe + k <= |s| then pe + k else |s|;
      && PassGoal(cmp, s, qe, k, Goal(cmp, s, pi, pe, pe, qe, out)) == PassGoal(cmp, s, pi, k, out)
      && (qe < |s| ==> qe == pi + 2 * k)
  {
    hide Merge, Pass;
    var pe := if k <= |s| - pi then pi + k else |s|;
    var qe := if pe + k <= |s| then pe + k else |s|;
    assert Take(s[pi..], k) == s[pi..pe];
    assert Take(Drop(s[pi..], k), k) == s[pe..qe];
    assert Drop(s[pi..], 2 * k) == s[qe..];
    PassIs(cmp, s[pi..], k);
    Regroup(out, Merge(cmp, s[pi..pe], s[pe..qe]), Pass(cmp, s[qe..], k));
  }

  lemma PassIs<T>(cmp: (T, T) -> int, s: seq<Node<T>>, k: nat)
    requires 0 < k && s != []
    ensures Pass(cmp, s, k) == Merge(cmp, Take(s, k), Take(Drop(s, k), k)) + Pass(cmp, Drop(s, 2 * k), k)
  {
  }

  lemma Regroup<A>(a: seq<A>, b: seq<A>, c: seq<A>)
    ensures (a + b) + c == a + (b + c)
  {
  }

  lemma PassEnds<T>(cmp: (T, T) -> int, s: seq<Node<T>>, k: nat, out: seq<Node<T>>)
    requires 0 < k
    ensures PassGoal(cmp, s, |s|, k, out) == out && PassGoal(cmp, s, 0, k, []) == Pass(cmp, s, k)
  {
    assert s[0..] == s && s[|s|..] == [];
  }

  lemma AllLeft<T>(s: seq<Node<T>>)
    requires NoneTwice(s) && LeadsOn(s, 0, |s|)
    ensures Left(s, 0, 0, 0, []) && Built<T>(null, null, []) && NoneTwice<Node<T>>([])
  {
  }

  lemma SomeLeft<T>(s: seq<Node<T>>, pi: nat, n: nat, out: seq<Node<T>>)
    requires pi + n <= |s| && Left(s, pi, pi, pi, out)
    ensures LeadsOn(s, pi, |s|) && Left(s, pi, pi + n, pi + n, out)
    ensures forall k | 0 <= k < |out| :: out[k] in s
  {
  }

  /** The list is `out`, doubly linked: the head's predecessor is the tail, the tail has no successor. */
  ghost predicate IsList<T>(list: Node?<T>, out: seq<Node<T>>)
    reads out
  {
    && list == At(out, 0) && NoneTwice(out)
    && (forall i | 0 <= i < |out| :: out[i].next == At(out, i + 1))
    && (forall i | 0 <= i < |out| :: out[i].prev == out[if i == 0 then |out| - 1 else i - 1])
  }

  /** One pass over the list. */
  method OnePass<T>(cmp: (T, T) -> int, list0: Node<T>, insize: nat, ghost s: seq<Node<T>>)
    returns (list: Node<T>, nmerges: nat)
    requires 0 < insize && NoneTwice(s) && list0 == At(s, 0) && LeadsOn(s, 0, |s|)
    modifies s
    ensures IsList(list, Pass(cmp, s, insize))
    ensures nmerges <= 1 <==> |s| <= 2 * insize
  {
    hide Left, Built, NoneTwice, Goal, LeadsOn, PassGoal, Pass;
    var p: Node?<T> := list0;
    var head: Node?<T>, tail: Node?<T> := null, null;
    nmerges := 0;
    ghost var pi, out: seq<Node<T>> := 0, [];
    AllLeft(s);
    PassEnds(cmp, s, insize, []);
    while p != null
      invariant pi <= |s| && p == At(s, pi) && NoneTwice(out) && Left(s, pi, pi, pi, out) && Built(head, tail, out)
      invariant PassGoal(cmp, s, pi, insize, out) == Pass(cmp, s, insize)
      invariant nmerges == 0 <==> pi == 0
      invariant nmerges == 1 ==> pi == if |s| <= 2 * insize then |s| else 2 * insize
      invariant nmerges > 1 ==> |s| > 2 * insize
      decreases |s| - pi
    {
      nmerges := nmerges + 1;
      SomeLeft(s, pi, 0, out);
      var psize, q := SplitRun(p, insize, s, pi);
      SomeLeft(s, pi, psize, out);
      PassStep(cmp, s, pi, insize, out);
      q, head, tail, out := MergeRuns(cmp, p, q, psize, insize, head, tail, s, pi, out);
      pi := if pi + psize + insize <= |s| then pi + psize + insize else |s|;
      p := q;
    }
    PassEnds(cmp, s, insize, out);
    SomeLeft(s, pi, 0, out);
    list := Close(head, tail, s, out);
  }

  /** The end of a pass. */
  method Close<T>(head: Node?<T>, tail: Node?<T>, ghost s: seq<Node<T>>, ghost out: seq<Node<T>>)
    returns (list: Node<T>)
    requires Built(head, tail, out) && NoneTwice(out) && out != [] && forall k | 0 <= k < |out| :: out[k] in s
    modifies s
    ensures IsList(list, out)
  {
    head.prev := tail;
    tail.next := null;
    list := head;
  }

  // ---------------------------------------------------------------- the sort

  /** r has the nodes of s, in order, and equal ones in the order they had. */
  ghost predicate StableSort<T(!new)>(cmp: (T, T) -> int, s: seq<Node<T>>, r: seq<Node<T>>) {
    && |r| == |s| && multiset(r) == multiset(s)
    && (forall i, j | 0 <= i < j < |r| :: cmp(r[i].elem, r[j].elem) <= 0)
    && (forall i, j | 0 <= i < j < |r| && cmp(r[j].elem, r[i].elem) <= 0 ::
          exists a, b :: 0 <= a < b < |s| && s[a] == r[i] && s[b] == r[j])
  }

  ghost function Position<T>(s: seq<Node<T>>, x: Node<T>): (i: int)
    ensures if x in s then 0 <= i < |s| && s[i] == x else i == -1
  {
    if x in s then var i :| 0 <= i < |s| && s[i] == x; i else -1
  }

  /** The rank of each node of s: its place in s. */
  ghost function Rank<T(!new)>(s: seq<Node<T>>): Node<T> -> int {
    (x: Node<T>) => Position(s, x)
  }

  lemma SingleRuns<T(!new)>(cmp: (T, T) -> int, s: seq<Node<T>>, lo: nat)
    requires NoneTwice(s) && lo <= |s|
    ensures InRuns(cmp, Rank(s), s[lo..], 1)
    decreases |s| - lo
  {
    if lo < |s| {
      SingleRuns(cmp, s, lo + 1);
      assert Drop(s[lo..], 1) == s[lo + 1..];
      forall i | lo <= i < |s|
        ensures Position(s, s[i]) == i
      {
      }
    }
  }

  lemma SortedIsStable<T(!new)>(cmp: (T, T) -> int, s: seq<Node<T>>, r: seq<Node<T>>)
    requires multiset(r) == multiset(s) && Sorted(cmp, Rank(s), r)
    ensures StableSort(cmp, s, r)
  {
    assert |r| == |multiset(r)| == |multiset(s)| == |s|;
    forall i, j | 0 <= i < j < |r|
      ensures cmp(r[i].elem, r[j].elem) <= 0
      ensures cmp(r[j].elem, r[i].elem) <= 0 ==> exists a, b :: 0 <= a < b < |s| && s[a] == r[i] && s[b] == r[j]
    {
      assert Less(cmp, Rank(s), r[i], r[j]);
      assert r[i] in multiset(s) && r[j] in multiset(s);
    }
  }

  /** DL_SORT2(): the list ends up a stable sort of itself, doubly linked. */
  method Sort<T(!new)>(cmp: (T, T) -> int, list0: Node?<T>, ghost s: seq<Node<T>>)
    returns (list: Node?<T>, ghost r: seq<Node<T>>)
    requires Preorder(cmp) && NoneTwice(s) && list0 == At(s, 0) && LeadsOn(s, 0, |s|)
    modifies s
    ensures StableSort(cmp, s, r) && IsList(list, r)
  {
    hide InRuns, Sorted, Pass, IsList, NoneTwice, LeadsOn, Preorder, StableSort, Rank;
    list, r := list0, s;
    if list != null {
      var insize, looping := 1, true;
      SingleRuns(cmp, s, 0);
      assert s[0..] == s;
      while looping
        invariant list != null && list == At(r, 0) && NoneTwice(r) && LeadsOn(r, 0, |r|)
        invariant 0 < insize && multiset(r) == multiset(s) && |r| == |s| && InRuns(cmp, Rank(s), r, insize)
        invariant !looping ==> IsList(list, r) && |r| <= insize
        decreases looping, |s| - insize
      {
        var nmerges;
        PassDoubles(cmp, Rank(s), r, insize);
        SameNodes(s, r);
        list, nmerges := OnePass(cmp, list, insize, r);
        r := Pass(cmp, r, insize);
        ListFacts(list, r);
        if nmerges <= 1 {
          looping := false;
        }
        insize := 2 * insize;
      }
      OneRun(cmp, Rank(s), r, insize);
      SortedIsStable(cmp, s, r);
    } else {
      Nothing(cmp, s);
    }
  }

  lemma SameNodes<T>(s: seq<Node<T>>, r: seq<Node<T>>)
    requires multiset(r) == multiset(s)
    ensures forall k | 0 <= k < |r| :: r[k] in s
  {
    forall k | 0 <= k < |r|
      ensures r[k] in s
    {
      assert r[k] in multiset(s);
    }
  }

  lemma ListFacts<T>(list: Node?<T>, r: seq<Node<T>>)
    requires IsList(list, r)
    ensures list == At(r, 0) && NoneTwice(r) && LeadsOn(r, 0, |r|)
  {
  }

  lemma OneRun<T>(cmp: (T, T) -> int, rank: Node<T> -> int, r: seq<Node<T>>, k: nat)
    requires 0 < k && InRuns(cmp, rank, r, k) && |r| <= k
    ensures Sorted(cmp, rank, r)
  {
    assert Take(r, k) == r;
  }

  lemma Nothing<T(!new)>(cmp: (T, T) -> int, s: seq<Node<T>>)
    requires s == []
    ensures StableSort(cmp, s, s) && IsList(null, s)
  {
  }
}
