/** Long file names, 13 units to a directory entry: storing them (put_lfn) and collecting them (pick_lfn). */
module LongNames {
  import opened Disks
  import opened FatCodes
  import opened Volumes

  const MAX_LFN: nat := 32

  /** Where unit number s of an entry stands. */
  function Offset(s: nat): nat {
    if s < 5 then 1 + 2 * s else if s < 11 then 14 + 2 * (s - 5) else 28 + 2 * (s - 11)
  }

  /** What a directory entry says about a part of a name: its number, whether it is marked as the last, the
      word that must be zero, and its units. */
  datatype Part = Part(ord: nat, last: bool, mbz: nat, units: seq<nat>)

  function PartOf(dir: seq<byte>): (p: Part)
    requires |dir| == 32
    ensures |p.units| == 13
  {
    Part(if dir[0] / 64 % 2 == 1 then dir[0] - 64 else dir[0], dir[0] / 64 % 2 == 1, Word(dir, 26),
         seq<nat>(13, s requires 0 <= s < 13 => Word(dir, Offset(s))))
  }

  /** Names have no unit 0 and none that stands for padding. */
  predicate Name(n: seq<nat>) {
    forall i | 0 <= i < |n| :: 0 < n[i] < 0xFFFF
  }

  /** The name with its end and padding. */
  function Unit(name: seq<nat>, i: nat): nat {
    if i < |name| then name[i] else if i == |name| then 0 else 0xFFFF
  }

  /** Part number ord of a name. */
  function PartOfName(name: seq<nat>, ord: nat): (p: Part)
    requires 1 <= ord
    ensures |p.units| == 13
  {
    Part(ord, |name| <= 13 * ord, 0, seq<nat>(13, s requires 0 <= s < 13 => Unit(name, 13 * (ord - 1) + s)))
  }

  /** Number of parts of a name. */
  function Parts(name: seq<nat>): nat {
    (|name| + 12) / 13
  }

  /** st_word() */
  method PutWord(dir: array<byte>, i: nat, w: nat)
    requires i + 1 < dir.Length && w < 0x1_0000
    modifies dir
    ensures Word(dir[..], i) == w
    ensures forall j | 0 <= j < dir.Length && j != i && j != i + 1 :: dir[j] == old(dir[j])
  {
    dir[i] := w % 0x100;
    dir[i + 1] := w / 0x100;
  }

  /** put_lfn() */
  method PutLfn(name: seq<nat>, dir: array<byte>, ord: nat, sum: byte)
    requires Name(name) && dir.Length == 32 && 1 <= ord <= Parts(name) && |name| <= 255
    modifies dir
    ensures PartOf(dir[..]) == PartOfName(name, ord)
    ensures dir[13] == sum && dir[11] == 0x0F
  {
    dir[13] := sum;
    dir[11] := 0x0F;
    dir[12] := 0;
    PutWord(dir, 26, 0);
    var i, s, wc := 13 * (ord - 1), 0, 0;
    while true
      invariant 0 <= s < 13 && dir[13] == sum && dir[11] == 0x0F && Word(dir[..], 26) == 0
      invariant forall t | 0 <= t < s :: Word(dir[..], Offset(t)) == Unit(name, 13 * (ord - 1) + t)
      invariant if wc == 0xFFFF then i == |name| + 1 <= 13 * (ord - 1) + s else i == 13 * (ord - 1) + s <= |name|
      decreases 13 - s
    {
      if wc != 0xFFFF {
        wc := Unit(name, i);
        i := i + 1;
      }
      ghost var was := dir[..];
      PutWord(dir, Offset(s), wc);
      forall t | 0 <= t < s
        ensures Word(dir[..], Offset(t)) == Word(was, Offset(t))
      {
        UnitsApart(t, s);
      }
      if wc == 0 {
        wc := 0xFFFF;
      }
      s := s + 1;
      if s >= 13 {
        break;
      }
    }
    ghost var was := dir[..];
    dir[0] := if wc == 0xFFFF || Unit(name, i) == 0 then ord + 64 else ord;
    SameParts(was, dir[..], name, ord);
  }

  /** The first byte holds no unit. */
  lemma SameParts(was: seq<byte>, dir: seq<byte>, name: seq<nat>, ord: nat)
    requires |was| == |dir| == 32 && 1 <= ord && dir[1..] == was[1..]
    requires forall t | 0 <= t < 13 :: Word(was, Offset(t)) == Unit(name, 13 * (ord - 1) + t)
    ensures PartOf(dir).units == PartOfName(name, ord).units && Word(dir, 26) == Word(was, 26)
  {
    forall i | 1 <= i < 32
      ensures dir[i] == was[i]
    {
      assert dir[1..][i - 1] == was[1..][i - 1];
    }
    forall t | 0 <= t < 13
      ensures PartOf(dir).units[t] == PartOfName(name, ord).units[t]
    {
      assert Word(dir, Offset(t)) == Word(was, Offset(t));
    }
  }

  lemma UnitsApart(t: nat, s: nat)
    requires t < s < 13
    ensures Offset(t) + 1 < Offset(s) && (Offset(s) + 1 < 26 || 27 < Offset(s))
  {
  }

  // ---------------------------------------------------------------- collecting

  /** The units up to the end of the name, with the 0 that marks it. */
  function UnitsKept(units: seq<nat>): (n: nat)
    ensures n <= |units|
  {
    if units == [] then 0 else if units[0] == 0 then 1 else 1 + UnitsKept(units[1..])
  }

  lemma {:induction false} KeptIs(units: seq<nat>)
    ensures var n := UnitsKept(units);
      && (units != [] ==> n > 0)
      && (forall t | 0 <= t < n - 1 :: units[t] != 0)
      && (n < |units| ==> units[n - 1] == 0)
  {
    if units != [] {
      KeptIs(units[1..]);
    }
  }

  /** Where the part belongs in the buffer, in 32-bit arithmetic. */
  function Base(p: Part): nat {
    Sub32(13 * p.ord, 13)
  }

  /** pick_lfn() accepts the part: padding follows the end of the name, and there is room for it and for the
      end that the last part gets. */
  predicate Accepts(p: Part) {
    && p.mbz == 0
    && (forall t | UnitsKept(p.units) <= t < |p.units| :: p.units[t] == 0xFFFF)
    && Base(p) + UnitsKept(p.units) <= MAX_LFN - (if p.last then 1 else 0)
  }

  /** What the buffer b becomes. */
  function Picked(b: seq<nat>, p: Part): (r: seq<nat>)
    requires |b| == MAX_LFN + 1 && Accepts(p)
    ensures |r| == |b|
  {
    var e := Base(p) + UnitsKept(p.units);
    var r := b[..Base(p)] + p.units[..UnitsKept(p.units)] + b[e..];
    if p.last then r[e := 0] else r
  }

  lemma UnitAt(dir: seq<byte>, s: nat)
    requires |dir| == 32 && s < 13
    ensures Offset(s) + 1 < 32 && PartOf(dir).units[s] == Word(dir, Offset(s))
  {
  }

  lemma IsPicked(b: seq<nat>, p: Part, r: seq<nat>, e: nat)
    requires |b| == |r| == MAX_LFN + 1 && Accepts(p) && e == Base(p) + UnitsKept(p.units)
    requires forall t | Base(p) <= t < e :: r[t] == p.units[t - Base(p)]
    requires p.last ==> r[e] == 0
    requires forall j | 0 <= j < |b| && !(Base(p) <= j < e) && !(p.last && j == e) :: r[j] == b[j]
    ensures r == Picked(b, p)
  {
    assert forall j | 0 <= j < |b| :: r[j] == Picked(b, p)[j];
  }

  /** pick_lfn() */
  method PickLfn(buf: array<nat>, dir: seq<byte>) returns (ok: bool)
    requires buf.Length == MAX_LFN + 1 && |dir| == 32
    modifies buf
    ensures ok <==> Accepts(PartOf(dir))
    ensures ok ==> buf[..] == Picked(old(buf[..]), PartOf(dir))
  {
    hide UnitsKept, Word, Offset, Picked;
    ghost var p, b := PartOf(dir), buf[..];
    ghost var n, base := UnitsKept(p.units), Base(p);
    KeptIs(p.units);
    if Word(dir, 26) != 0 {
      return false;
    }
    var last := dir[0] / 64 % 2 == 1;
    var ord: nat := if last then dir[0] - 64 else dir[0];
    var i: nat, wc, s := Sub32(13 * ord, 13), 1, 0;
    while s < 13
      invariant 0 <= s <= 13
      invariant wc == 0 <==> s >= n && p.units[n - 1] == 0
      invariant i == base + (if s <= n then s else n) && (s > 0 ==> i <= MAX_LFN)
      invariant forall t | n <= t < s :: p.units[t] == 0xFFFF
      invariant forall j | base <= j < i && j < buf.Length :: buf[j] == p.units[j - base]
      invariant forall j | 0 <= j < buf.Length && !(base <= j < i) :: buf[j] == b[j]
    {
      UnitAt(dir, s);
      var uc := Word(dir, Offset(s));
      if wc != 0 {
        if i >= MAX_LFN {
          return false;
        }
        wc := uc;
        buf[i] := uc;
        i := i + 1;
      } else if uc != 0xFFFF {
        return false;
      }
      s := s + 1;
    }
    if last {
      if i >= MAX_LFN {
        return false;
      }
      buf[i] := 0;
    }
    ok := true;
    IsPicked(b, p, buf[..], i);
  }

  // ---------------------------------------------------------------- the round trip

  /** How many units part number ord of a name keeps, and that the last part is marked and no other. */
  lemma KeptOfName(name: seq<nat>, ord: nat)
    requires Name(name) && 1 <= ord <= Parts(name)
    ensures var p := PartOfName(name, ord);
      && UnitsKept(p.units) == (if |name| < 13 * ord then |name| + 1 - 13 * (ord - 1) else 13)
      && (forall t | UnitsKept(p.units) <= t < 13 :: p.units[t] == 0xFFFF)
      && (p.last <==> ord == Parts(name))
  {
    var p, base := PartOfName(name, ord), 13 * (ord - 1);
    KeptIs(p.units);
    var n := UnitsKept(p.units);
    if n < 13 {
      assert p.units[n - 1] == Unit(name, base + n - 1);
    }
    if |name| < 13 * ord {
      var z := |name| - base;
      assert p.units[z] == Unit(name, |name|) == 0;
      assert n >= 1 && !(z < n - 1);
      forall t | n <= t < 13
        ensures p.units[t] == 0xFFFF
      {
        assert p.units[t] == Unit(name, base + t);
      }
    }
  }

  /** A name can be collected from its parts just when it has at most MAX_LFN - 2 units: longer names can be
      stored, up to MAX_LFN units, but not collected. */
  lemma Collectable(name: seq<nat>)
    requires Name(name) && 1 <= |name| <= 255
    ensures (forall o | 1 <= o <= Parts(name) :: Accepts(PartOfName(name, o))) <==> |name| <= MAX_LFN - 2
  {
    hide UnitsKept, PartOfName;
    forall o | 1 <= o <= Parts(name)
      ensures Accepts(PartOfName(name, o)) <==>
              (if |name| < 13 * o then |name| + 1 else 13 * o) <= MAX_LFN - (if o == Parts(name) then 1 else 0)
    {
      KeptOfName(name, o);
      Fields(name, o);
    }
    var n := Parts(name);
    assert Accepts(PartOfName(name, n)) <==> (if |name| < 13 * n then |name| + 1 else 13 * n) <= MAX_LFN - 1;
  }

  lemma PickedAt(b: seq<nat>, p: Part, i: nat)
    requires |b| == MAX_LFN + 1 && Accepts(p) && i < |b|
    ensures var e := Base(p) + UnitsKept(p.units);
      Picked(b, p)[i] == if Base(p) <= i < e then p.units[i - Base(p)] else if p.last && i == e then 0 else b[i]
  {
  }

  lemma Fields(name: seq<nat>, o: nat)
    requires 1 <= o <= 256
    ensures Base(PartOfName(name, o)) == 13 * (o - 1)
    ensures PartOfName(name, o).ord == o && PartOfName(name, o).mbz == 0
    ensures forall t | 0 <= t < 13 :: PartOfName(name, o).units[t] == Unit(name, 13 * (o - 1) + t)
  {
  }

  /** What collecting one part does to the place of the name in the buffer. */
  lemma OnePicked(name: seq<nat>, o: nat, b: seq<nat>, i: nat)
    requires Name(name) && 1 <= |name| <= MAX_LFN - 2 && 1 <= o <= Parts(name) && |b| == MAX_LFN + 1 && i <= |name|
    ensures Accepts(PartOfName(name, o))
    ensures Picked(b, PartOfName(name, o))[i]
         == if 13 * (o - 1) <= i < 13 * o || (o == Parts(name) && i == |name|) then Unit(name, i) else b[i]
  {
    hide UnitsKept, PartOfName, Accepts, Picked, Base;
    Collectable(name);
    KeptOfName(name, o);
    Fields(name, o);
    PickedAt(b, PartOfName(name, o), i);
    assert 13 * (o - 1) <= i < 13 * o ==> PartOfName(name, o).units[i - 13 * (o - 1)] == Unit(name, i);
  }

  /** The parts of the name, collected in the order ords, take the buffer through bufs. */
  ghost predicate Collecting(name: seq<nat>, ords: seq<nat>, bufs: seq<seq<nat>>) {
    && |bufs| == |ords| + 1
    && (forall t | 0 <= t < |bufs| :: |bufs[t]| == MAX_LFN + 1)
    && (forall t | 0 <= t < |ords| ::
          && 1 <= ords[t] <= Parts(name)
          && Accepts(PartOfName(name, ords[t]))
          && bufs[t + 1] == Picked(bufs[t], PartOfName(name, ords[t])))
  }

  /** A unit is right once its part was collected. */
  lemma {:induction false} UnitCollected(name: seq<nat>, ords: seq<nat>, bufs: seq<seq<nat>>, k: nat, i: nat)
    requires Name(name) && 1 <= |name| <= MAX_LFN - 2 && Collecting(name, ords, bufs) && k <= |ords| && i <= |name|
    requires exists t | 0 <= t < k :: 13 * (ords[t] - 1) <= i < 13 * ords[t] || (ords[t] == Parts(name) && i == |name|)
    ensures bufs[k][i] == Unit(name, i)
    decreases k
  {
    hide Picked, PartOfName, Accepts;
    OnePicked(name, ords[k - 1], bufs[k - 1], i);
    assert bufs[k] == Picked(bufs[k - 1], PartOfName(name, ords[k - 1]));
    if !(13 * (ords[k - 1] - 1) <= i < 13 * ords[k - 1] || (ords[k - 1] == Parts(name) && i == |name|)) {
      UnitCollected(name, ords, bufs, k - 1, i);
    }
  }

  /** The round trip: collecting all parts of a name, in any order, gives the name and its end. */
  lemma NameCollected(name: seq<nat>, ords: seq<nat>, bufs: seq<seq<nat>>)
    requires Name(name) && 1 <= |name| <= MAX_LFN - 2 && Collecting(name, ords, bufs)
    requires forall o | 1 <= o <= Parts(name) :: o in ords
    ensures bufs[|ords|][..|name|] == name && bufs[|ords|][|name|] == 0
  {
    hide Picked, PartOfName, Accepts;
    var b := bufs[|ords|];
    forall i | 0 <= i <= |name|
      ensures b[i] == Unit(name, i)
    {
      var o := if i == |name| then Parts(name) else i / 13 + 1;
      assert 1 <= o <= Parts(name) && o in ords;
      var t :| 0 <= t < |ords| && ords[t] == o;
      UnitCollected(name, ords, bufs, |ords|, i);
    }
  }
}
