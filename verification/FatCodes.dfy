/** How FAT entries are packed into the bytes of the FAT: 12-bit entries share bytes, 16- and 32-bit
    entries are little-endian words (fatgen103, "FAT Data Structure"). */
module FatCodes {
  import opened Disks

  datatype FsType = FAT12 | FAT16 | FAT32 | EXFAT

  function Pair(lo: nat, hi: nat): nat {
    lo + 0x100 * hi
  }

  function Word(a: seq<byte>, i: nat): (w: nat)
    requires i + 1 < |a|
    ensures w < 0x1_0000
  {
    Pair(a[i], a[i + 1])
  }

  function Dword(a: seq<byte>, i: nat): (w: nat)
    requires i + 3 < |a|
    ensures w < 0x1_0000_0000
  {
    Word(a, i) + 0x1_0000 * Word(a, i + 2)
  }

  /** Number of values an entry can hold. */
  function Modulus(t: FsType): (m: nat) {
    match t
    case FAT12 => 0x1000
    case FAT16 => 0x1_0000
    case FAT32 => 0x1000_0000
    case EXFAT => 0x8000_0000
  }

  /** The part of v an entry keeps. */
  function Mask(t: FsType, v: nat): (m: nat)
    ensures m < Modulus(t)
  {
    match t
    case FAT12 => v % 0x1000
    case FAT16 => v % 0x1_0000
    case FAT32 => v % 0x1000_0000
    case EXFAT => v % 0x8000_0000
  }

  /** Bytes that n entries take. */
  function Bytes(t: FsType, n: nat): nat {
    match t
    case FAT12 => n * 3 / 2 + n % 2
    case FAT16 => n * 2
    case FAT32 => n * 4
    case EXFAT => n * 4
  }

  /** The 12-bit entry in the 16-bit word w: the upper bits if its number is odd. */
  function Unpack12(odd: bool, w: nat): (v: nat)
    requires w < 0x1_0000
    ensures v < 0x1000
  {
    if odd then w / 16 else w % 0x1000
  }

  function Entry12(a: seq<byte>, b: nat, odd: bool): (v: nat)
    requires b + 1 < |a|
    ensures v < 0x1000
  {
    Unpack12(odd, Word(a, b))
  }

  /** The value of entry c in the FAT bytes a. */
  function Entry(t: FsType, a: seq<byte>, c: nat): (v: nat)
    requires Bytes(t, c + 1) <= |a|
    ensures v < Modulus(t)
  {
    match t
    case FAT12 =>
      InBytes12(c + 1, c);
      Entry12(a, c + c / 2, c % 2 == 1)
    case FAT16 => Word(a, 2 * c)
    case FAT32 => Mask(t, Dword(a, 4 * c))
    case EXFAT => Mask(t, Dword(a, 4 * c))
  }

  lemma BytesGrow(t: FsType, c: nat, n: nat)
    requires c <= n
    ensures Bytes(t, c) <= Bytes(t, n)
  {
  }

  /** Entries c .. n - 1. */
  function EntriesFrom(t: FsType, a: seq<byte>, c: nat, n: nat): (s: seq<nat>)
    requires c <= n && Bytes(t, n) <= |a|
    ensures |s| == n - c
    decreases n - c
  {
    if c == n then []
    else
      BytesGrow(t, c + 1, n);
      [Entry(t, a, c)] + EntriesFrom(t, a, c + 1, n)
  }

  /** All entries of a FAT of n entries. */
  function Table(t: FsType, a: seq<byte>, n: nat): (s: seq<nat>)
    requires Bytes(t, n) <= |a|
    ensures |s| == n
  {
    EntriesFrom(t, a, 0, n)
  }

  lemma {:induction false} EntriesAt(t: FsType, a: seq<byte>, b: nat, n: nat, c: nat)
    requires Bytes(t, n) <= |a| && b <= c < n
    ensures Bytes(t, c + 1) <= |a| && EntriesFrom(t, a, b, n)[c - b] == Entry(t, a, c)
    decreases n - b
  {
    hide Entry, Bytes;
    BytesGrow(t, c + 1, n);
    if b < c {
      EntriesAt(t, a, b + 1, n, c);
    }
  }

  lemma TableAt(t: FsType, a: seq<byte>, n: nat, c: nat)
    requires Bytes(t, n) <= |a| && c < n
    ensures Bytes(t, c + 1) <= |a| && Table(t, a, n)[c] == Entry(t, a, c)
  {
    EntriesAt(t, a, 0, n, c);
  }

  lemma Table12(a: seq<byte>, n: nat, c: nat)
    requires Bytes(FAT12, n) <= |a| && c < n
    ensures c + c / 2 + 1 < |a| && Table(FAT12, a, n)[c] == Entry12(a, c + c / 2, c % 2 == 1)
  {
    TableAt(FAT12, a, n, c);
    InBytes12(n, c);
  }

  lemma Table16(a: seq<byte>, n: nat, c: nat)
    requires Bytes(FAT16, n) <= |a| && c < n
    ensures 2 * c + 1 < |a| && Table(FAT16, a, n)[c] == Word(a, 2 * c)
  {
    TableAt(FAT16, a, n, c);
  }

  lemma Table32(t: FsType, a: seq<byte>, n: nat, c: nat)
    requires t.FAT32? || t.EXFAT?
    requires Bytes(t, n) <= |a| && c < n
    ensures 4 * c + 3 < |a| && Table(t, a, n)[c] == Mask(t, Dword(a, 4 * c))
  {
    TableAt(t, a, n, c);
  }

  /** First byte of a 12-bit entry after storing v, given its old value p. */
  function Low12(odd: bool, p: byte, v: nat): byte {
    if odd then p % 16 + v % 16 * 16 else v % 0x100
  }

  /** Second byte of a 12-bit entry after storing v, given its old value p. */
  function High12(odd: bool, p: byte, v: nat): byte {
    if odd then v / 16 % 0x100 else p / 16 * 16 + v / 0x100 % 16
  }

  /** The first half of storing a 12-bit entry at byte b. */
  function Half12(a: seq<byte>, b: nat, odd: bool, v: nat): seq<byte>
    requires b + 1 < |a|
  {
    a[b := Low12(odd, a[b], v)]
  }

  function Stored12(a: seq<byte>, b: nat, odd: bool, v: nat): seq<byte>
    requires b + 1 < |a|
  {
    Half12(a, b, odd, v)[b + 1 := High12(odd, a[b + 1], v)]
  }

  lemma Digits12(v: nat)
    ensures v % 0x1000 == v % 16 + 16 * (v / 16 % 0x100)
    ensures v % 0x1000 == v % 0x100 + 0x100 * (v / 0x100 % 16)
  {
    assert v / 16 / 0x100 == v / 0x1000;
    assert v / 0x100 / 16 == v / 0x1000;
  }

  /** Low12 and High12 together hold the entry. */
  lemma Fit12(odd: bool, p: byte, q: byte, v: nat)
    ensures Unpack12(odd, Pair(Low12(odd, p, v), High12(odd, q, v))) == v % 0x1000
  {
    Digits12(v);
    if odd {
      OddPart(Low12(odd, p, v), High12(odd, q, v));
      var l: int, m: int := v % 16, p % 16;
      assert (m + l * 16) / 16 == l;
    } else {
      EvenPart(Low12(odd, p, v), High12(odd, q, v));
      var l: int, m: int := v / 0x100 % 16, q / 16;
      assert (m * 16 + l) % 16 == l;
    }
  }

  lemma EvenPart(x: byte, p: byte)
    ensures Pair(x, p) % 0x1000 == x as int + 0x100 * (p % 16)
  {
  }

  lemma OddPart(p: byte, x: byte)
    ensures Pair(p, x) / 16 == p / 16 + 16 * x as int
  {
  }

  /** Storing an odd entry keeps the half byte of the entry before it. */
  lemma BeforeOdd(x: byte, p: byte, v: nat)
    ensures Unpack12(false, Pair(x, Low12(true, p, v))) == Unpack12(false, Pair(x, p))
  {
    EvenPart(x, p);
    EvenPart(x, Low12(true, p, v));
  }

  /** Storing an even entry keeps the half byte of the entry after it. */
  lemma AfterEven(p: byte, x: byte, v: nat)
    ensures Unpack12(true, Pair(High12(false, p, v), x)) == Unpack12(true, Pair(p, x))
  {
    var h: int, r: int := p / 16, v / 0x100 % 16;
    assert High12(false, p, v) as int == 16 * h + r;
    assert (16 * h + r) / 16 == h;
    OddPart(p, x);
    OddPart(High12(false, p, v), x);
  }

  /** The bytes of two 12-bit entries are apart, or the entries are neighbours that share one byte. */
  ghost predicate NoOverlap(b: nat, odd: bool, e: nat, odd': bool) {
    || e + 1 < b
    || b + 1 < e
    || (e + 1 == b && odd && !odd')
    || (e == b + 1 && !odd && odd')
  }

  lemma EntriesApart(c: nat, d: nat)
    requires d != c
    ensures NoOverlap(c + c / 2, c % 2 == 1, d + d / 2, d % 2 == 1)
  {
  }

  /** Storing entry b, or only its first byte, leaves every other entry e as it was. */
  lemma StoreApart12(a: seq<byte>, b: nat, odd: bool, v: nat, e: nat, odd': bool)
    requires b + 1 < |a| && e + 1 < |a| && NoOverlap(b, odd, e, odd')
    ensures Entry12(Half12(a, b, odd, v), e, odd') == Entry12(a, e, odd')
    ensures Entry12(Stored12(a, b, odd, v), e, odd') == Entry12(a, e, odd')
  {
    if e + 1 == b {
      BeforeOdd(a[e], a[b], v);
    } else if e == b + 1 {
      AfterEven(a[e], a[e + 1], v);
    }
  }

  lemma InBytes12(n: nat, c: nat)
    requires c < n
    ensures c + c / 2 + 1 < Bytes(FAT12, n)
    ensures Bytes(FAT12, c + 1) <= Bytes(FAT12, n)
  {
  }

  /** Storing both bytes of a 12-bit entry sets that entry and no other; storing only the first byte
      sets no other. */
  lemma Store12(a: seq<byte>, n: nat, c: nat, v: nat)
    requires Bytes(FAT12, n) <= |a| && c < n
    ensures c + c / 2 + 1 < |a|
    ensures Table(FAT12, Stored12(a, c + c / 2, c % 2 == 1, v), n) == Table(FAT12, a, n)[c := v % 0x1000]
    ensures forall d | 0 <= d < n && d != c ::
      Table(FAT12, Half12(a, c + c / 2, c % 2 == 1, v), n)[d] == Table(FAT12, a, n)[d]
  {
    InBytes12(n, c);
    var b, odd := c + c / 2, c % 2 == 1;
    Fit12(odd, a[b], a[b + 1], v);
    var h, a' := Half12(a, b, odd, v), Stored12(a, b, odd, v);
    forall d | 0 <= d < n
      ensures Table(FAT12, a', n)[d] == if d == c then v % 0x1000 else Table(FAT12, a, n)[d]
      ensures d != c ==> Table(FAT12, h, n)[d] == Table(FAT12, a, n)[d]
    {
      Table12(a, n, d);
      Table12(h, n, d);
      Table12(a', n, d);
      if d != c {
        EntriesApart(c, d);
        StoreApart12(a, b, odd, v, d + d / 2, d % 2 == 1);
      }
    }
  }

  /** a with the little-endian 16-bit word v at i. */
  function StWord(a: seq<byte>, i: nat, v: nat): (r: seq<byte>)
    requires i + 1 < |a|
    ensures |r| == |a|
  {
    a[i := v % 0x100][i + 1 := v / 0x100 % 0x100]
  }

  /** a with the little-endian 32-bit word v at i. */
  function StDword(a: seq<byte>, i: nat, v: nat): (r: seq<byte>)
    requires i + 3 < |a|
    ensures |r| == |a|
  {
    StWord(StWord(a, i, v), i + 2, v / 0x1_0000)
  }

  lemma SplitWord(v: nat)
    ensures v % 0x1_0000 == Pair(v % 0x100, v / 0x100 % 0x100)
  {
    var hi, lo := v / 0x1_0000, Pair(v % 0x100, v / 0x100 % 0x100);
    assert v / 0x100 == 0x100 * (v / 0x100 / 0x100) + v / 0x100 % 0x100;
    assert v == 0x1_0000 * hi + lo;
  }

  lemma SplitDword(v: nat)
    ensures v % 0x1_0000_0000 == v % 0x1_0000 + 0x1_0000 * (v / 0x1_0000 % 0x1_0000)
  {
    assert v == 0x1_0000 * (v / 0x1_0000) + v % 0x1_0000;
    assert v / 0x1_0000 == 0x1_0000 * (v / 0x1_0000 / 0x1_0000) + v / 0x1_0000 % 0x1_0000;
  }

  lemma WordRoundTrip(a: seq<byte>, i: nat, v: nat)
    requires i + 1 < |a|
    ensures Word(StWord(a, i, v), i) == v % 0x1_0000
  {
    SplitWord(v);
  }

  lemma DwordRoundTrip(a: seq<byte>, i: nat, v: nat)
    requires i + 3 < |a|
    ensures Dword(StDword(a, i, v), i) == v % 0x1_0000_0000
  {
    var b := StWord(a, i, v);
    WordRoundTrip(a, i, v);
    WordRoundTrip(b, i + 2, v / 0x1_0000);
    SplitDword(v);
  }

  /** Storing a 16-bit entry. */
  lemma Store16(a: seq<byte>, n: nat, c: nat, v: nat)
    requires Bytes(FAT16, n) <= |a| && c < n
    ensures Table(FAT16, StWord(a, 2 * c, v), n) == Table(FAT16, a, n)[c := v % 0x1_0000]
  {
    var a' := StWord(a, 2 * c, v);
    forall d | 0 <= d < n
      ensures Table(FAT16, a', n)[d] == if d == c then v % 0x1_0000 else Table(FAT16, a, n)[d]
    {
      Table16(a, n, d);
      Table16(a', n, d);
      WordRoundTrip(a, 2 * c, v);
    }
  }

  /** Storing a dword leaves the dwords beside it as they were. */
  lemma DwordBeside(a: seq<byte>, i: nat, v: nat, j: nat)
    requires i + 3 < |a| && j + 3 < |a| && (j + 4 <= i || i + 4 <= j)
    ensures Dword(StDword(a, i, v), j) == Dword(a, j)
  {
  }

  /** Storing a 32-bit entry. */
  lemma Store32(t: FsType, a: seq<byte>, n: nat, c: nat, v: nat)
    requires t.FAT32? || t.EXFAT?
    requires Bytes(t, n) <= |a| && c < n
    ensures Table(t, StDword(a, 4 * c, v), n) == Table(t, a, n)[c := Mask(t, v)]
    ensures forall d | 0 <= d < n ::
              4 * d + 3 < |a|
              && Dword(StDword(a, 4 * c, v), 4 * d) == if d == c then v % 0x1_0000_0000 else Dword(a, 4 * d)
  {
    var a' := StDword(a, 4 * c, v);
    DwordRoundTrip(a, 4 * c, v);
    Narrow(t, v);
    forall d | 0 <= d < n
      ensures Table(t, a', n)[d] == if d == c then Mask(t, v) else Table(t, a, n)[d]
      ensures 4 * d + 3 < |a| && Dword(a', 4 * d) == if d == c then v % 0x1_0000_0000 else Dword(a, 4 * d)
    {
      Table32(t, a, n, d);
      Table32(t, a', n, d);
      if d != c {
        DwordBeside(a, 4 * c, v, 4 * d);
      }
    }
  }

  lemma Rem28(q: nat, r: nat)
    requires r < 0x1000_0000
    ensures (0x1000_0000 * q + r) % 0x1000_0000 == r
  {
  }

  lemma Rem31(q: nat, r: nat)
    requires r < 0x8000_0000
    ensures (0x8000_0000 * q + r) % 0x8000_0000 == r
  {
  }

  /** A 32-bit store keeps what the entry keeps. */
  lemma Narrow(t: FsType, v: nat)
    requires t.FAT32? || t.EXFAT?
    ensures Mask(t, v % 0x1_0000_0000) == Mask(t, v)
  {
    var q, r := v / 0x1_0000_0000, v % 0x1_0000_0000;
    assert v == 0x1_0000_0000 * q + r;
    if t.FAT32? {
      Rem28(16 * q + r / 0x1000_0000, r % 0x1000_0000);
    } else {
      Rem31(2 * q + r / 0x8000_0000, r % 0x8000_0000);
    }
  }

  /** The dword put_fat() stores on FAT32 keeps the reserved upper four bits of the old one. */
  lemma Merge32(v: nat, o: nat)
    requires o < 0x1_0000_0000
    ensures var m := v % 0x1000_0000 + o / 0x1000_0000 * 0x1000_0000;
      m % 0x1000_0000 == v % 0x1000_0000 && m / 0x1000_0000 == o / 0x1000_0000 && m < 0x1_0000_0000
  {
  }

  /** The upper four bits of each of the n 32-bit entries are the same. */
  ghost predicate SameTops(a: seq<byte>, b: seq<byte>, n: nat) {
    4 * n <= |a| == |b| && forall c | 0 <= c < n :: Dword(b, 4 * c) / 0x1000_0000 == Dword(a, 4 * c) / 0x1000_0000
  }

  /** A FAT32 entry is stored under the upper four bits that are there. */
  lemma Store28(a: seq<byte>, n: nat, c: nat, v: nat)
    requires 4 * n <= |a| && c < n
    ensures var dw := v % 0x1000_0000 + Dword(a, 4 * c) / 0x1000_0000 * 0x1000_0000;
      SameTops(a, StDword(a, 4 * c, dw), n)
  {
    hide Dword, StDword;
    Merge32(v, Dword(a, 4 * c));
    Store32(FAT32, a, n, c, v % 0x1000_0000 + Dword(a, 4 * c) / 0x1000_0000 * 0x1000_0000);
  }

  /** All of the n 32-bit entries but entry x are the same, bit by bit. */
  ghost predicate DwordsKept(a: seq<byte>, b: seq<byte>, n: nat, x: nat) {
    4 * n <= |a| == |b| && forall c | 0 <= c < n && c != x :: Dword(b, 4 * c) == Dword(a, 4 * c)
  }

  lemma DwordsStored(a: seq<byte>, n: nat, c: nat, v: nat)
    requires 4 * n <= |a| && c < n
    ensures DwordsKept(a, StDword(a, 4 * c, v), n, c) && Dword(StDword(a, 4 * c, v), 4 * c) == v % 0x1_0000_0000
  {
    hide Dword, StDword;
    Store32(FAT32, a, n, c, v);
  }
}
