/** The histogram of measured times: its bounds, and the index of a value (histogram.c). */
module Histograms {

  const LENGTH: nat := 895          // BOUND_LENGTH
  const SMALL: nat := 1000          // SBI_SIZE
  const MAX: nat := 0x7FFF_FFFF_FFFF_FFFF

  /** A 64-bit sum, with wrap-around. */
  function Wrap64(x: int): int
    requires 0 <= x < 0x1_0000_0000_0000_0000
  {
    if x <= MAX then x else x - 0x1_0000_0000_0000_0000
  }

  ghost predicate Rising(b: seq<int>) {
    forall i, j | 0 <= i <= j < |b| :: b[i] <= b[j]
  }

  /** From 0 up to the largest number, and each bound above the one before it, but for the largest. */
  ghost predicate Bounds(b: seq<int>) {
    && |b| == LENGTH && b[0] == 0 && b[LENGTH - 1] == MAX && Rising(b)
    && (forall i | 0 <= i < |b| :: 0 <= b[i] <= MAX)
    && (forall i | 0 < i < |b| :: b[i - 1] < b[i] || b[i] == MAX)
  }

  /** i is the index a scan from the first bound would find. */
  ghost predicate IndexOf(b: seq<int>, value: int, i: nat) {
    i < |b| && b[i] <= value && (i + 1 < |b| ==> value < b[i + 1])
  }

  class Histogram {
    const bounds: array<int>
    const small: array<nat>   // index of every small value

    ghost predicate Valid()
      reads bounds, small
    {
      && small.Length == SMALL && Bounds(bounds[..])
      && (forall v | 0 <= v < SMALL :: IndexOf(bounds[..], v, small[v]))
    }

    /** initHistogramsModule().  `step` stands for the part of a bound that is added to it: any part that is
        not negative will do. */
    constructor (step: nat -> nat)
      requires forall p :: step(p) <= MAX
      ensures Valid() && fresh(bounds) && fresh(small)
    {
      var b := FillBounds(step);
      var s := FillSmall(b);
      bounds, small := b, s;
    }
  }

  method FillBounds(step: nat -> nat) returns (b: array<int>)
    requires forall p :: step(p) <= MAX
    ensures fresh(b) && Bounds(b[..])
  {
    b := new int[LENGTH];
    b[0] := 0;
    var i := 1;
    while i < LENGTH
      invariant 1 <= i <= LENGTH && b[0] == 0
      invariant forall j | 0 <= j < i :: 0 <= b[j] <= MAX
      invariant forall j | 0 < j < i :: b[j - 1] < b[j] || b[j] == MAX
    {
      var prev := b[i - 1];
      var next := Wrap64(prev + step(prev));
      if next == prev {
        next := Wrap64(prev + 1);
      }
      if next < prev {
        next := MAX;
      }
      b[i] := next;
      i := i + 1;
    }
    b[LENGTH - 1] := MAX;
    StepsRise(b[..], LENGTH);
    assert b[..][..LENGTH] == b[..];
  }

  /** The index of every small value: one walk along the bounds. */
  method FillSmall(b: array<int>) returns (s: array<nat>)
    requires Bounds(b[..])
    ensures fresh(s) && s.Length == SMALL && forall v | 0 <= v < SMALL :: IndexOf(b[..], v, s[v])
  {
    s := new nat[SMALL];
    ghost var bs := b[..];
    var i, j := 0, 0;
    while j < SMALL
      invariant b[..] == bs && 0 <= i <= LENGTH && 0 <= j <= SMALL
      invariant j < SMALL ==> i < LENGTH - 1 && bs[i] <= j
      invariant forall v | 0 <= v < j :: IndexOf(bs, v, s[v])
      decreases LENGTH - i
    {
      while j < b[i + 1] && j < SMALL
        invariant b[..] == bs && 0 <= j <= SMALL && bs[i] <= j
        invariant forall v | 0 <= v < j :: IndexOf(bs, v, s[v])
      {
        s[j] := i;
        j := j + 1;
      }
      i := i + 1;
    }
  }

  lemma {:induction false} StepsRise(b: seq<int>, n: nat)
    requires n <= |b| && (forall i | 0 < i < |b| :: b[i - 1] <= b[i])
    ensures Rising(b[..n])
  {
    if n > 1 {
      StepsRise(b, n - 1);
      forall i, j | 0 <= i <= j < n
        ensures b[..n][i] <= b[..n][j]
      {
        if j == n - 1 && i < j {
          assert b[..n - 1][i] <= b[..n - 1][n - 2];
        } else if j < n - 1 {
          assert b[..n - 1][i] <= b[..n - 1][j];
        }
      }
    }
  }

  /** histogramGetIndex() */
  method GetIndex(h: Histogram, value: int) returns (index: nat)
    requires h.Valid() && value <= MAX
    ensures value >= 0 ==> IndexOf(h.bounds[..], value, index)
    ensures value < 0 ==> index == 0
  {
    if value < 0 {
      return 0;
    }
    if value < SMALL {
      return h.small[value];
    }
    var l, r := h.small[SMALL - 1], LENGTH - 1;
    while l < r
      invariant 0 <= l <= r < LENGTH && h.bounds[l] <= value && (r + 1 < LENGTH ==> value < h.bounds[r + 1])
      decreases r - l
    {
      var m := (l + r) / 2;
      if h.bounds[m] > value {
        r := m - 1;
      } else if h.bounds[m + 1] <= value {
        l := m + 1;
      } else {
        return m;
      }
    }
    return l;
  }
}
