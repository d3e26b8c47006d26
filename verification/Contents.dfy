/** The bytes of a file, as its sectors hold them. */
module Contents {
  import opened Disks
  import opened Caches

  /** Byte number i of the sectors `data`. */
  function ByteAt(data: seq<Sector>, i: nat): byte
    requires i < |data| * 512
  {
    data[i / 512][i % 512]
  }

  lemma InSector(data: seq<Sector>, p: nat, i: nat)
    requires p + i < |data| * 512 && p % 512 + i < 512
    ensures ByteAt(data, p + i) == data[p / 512][p % 512 + i]
  {
    assert (p + i) / 512 == p / 512;
  }

  /** n bytes from position p on. */
  function Range(data: seq<Sector>, p: nat, n: nat): (s: seq<byte>)
    requires p + n <= |data| * 512
    ensures |s| == n && forall i | 0 <= i < n :: s[i] == ByteAt(data, p + i)
  {
    seq<byte>(n, i requires 0 <= i < n => ByteAt(data, p + i))
  }

  lemma RangeInSector(data: seq<Sector>, p: nat, n: nat)
    requires p / 512 < |data| && p % 512 + n <= 512
    ensures p + n <= |data| * 512 && data[p / 512][p % 512..p % 512 + n] == Range(data, p, n)
  {
    var r, d := Range(data, p, n), data[p / 512][p % 512..p % 512 + n];
    forall i | 0 <= i < n
      ensures r[i] == d[i]
    {
      InSector(data, p, i);
    }
  }

  /** The first n bytes of the sectors. */
  function BytesOf(data: seq<Sector>, n: nat): (s: seq<byte>)
    requires n <= |data| * 512
    ensures |s| == n
    ensures forall i | 0 <= i < n :: s[i] == ByteAt(data, i)
  {
    seq(n, i requires 0 <= i < n => ByteAt(data, i))
  }

  /** The bytes s with w written over them from position p on, past the end if w is longer than the rest. */
  function Overwrite(s: seq<byte>, p: nat, w: seq<byte>): (r: seq<byte>)
    requires p <= |s|
    ensures |r| == if p + |w| > |s| then p + |w| else |s|
    ensures forall i | 0 <= i < |r| :: r[i] == if p <= i < p + |w| then w[i - p] else s[i]
  {
    s[..p] + w + if p + |w| <= |s| then s[p + |w|..] else []
  }

  lemma OverwriteMore(s: seq<byte>, p: nat, w: seq<byte>, n: nat, m: nat)
    requires p <= |s| && n + m <= |w|
    ensures Overwrite(Overwrite(s, p, w[..n]), p + n, w[n..n + m]) == Overwrite(s, p, w[..n + m])
  {
    OverwriteTwice(s, p, w[..n], w[n..n + m]);
    assert w[..n] + w[n..n + m] == w[..n + m];
  }

  /** Writing a and then b after it is writing a + b. */
  lemma OverwriteTwice(s: seq<byte>, p: nat, a: seq<byte>, b: seq<byte>)
    requires p <= |s|
    ensures Overwrite(Overwrite(s, p, a), p + |a|, b) == Overwrite(s, p, a + b)
  {
  }

  lemma OverwriteNothing(s: seq<byte>, p: nat)
    requires p <= |s|
    ensures Overwrite(s, p, []) == s
  {
  }

  /** The bytes of n sectors, as sectors. */
  function Chunks(src: seq<byte>, n: nat): (d: seq<Sector>)
    requires |src| == n * 512
    ensures |d| == n
    ensures forall j | 0 <= j < n :: d[j] == src[j * 512..][..512]
  {
    seq(n, j requires 0 <= j < n => src[j * 512..][..512])
  }

  function Larger(a: nat, b: nat): nat {
    if a > b then a else b
  }

  lemma LargerBounds(a: nat, b: nat)
    ensures a <= Larger(a, b) && b <= Larger(a, b) && (Larger(a, b) == a || Larger(a, b) == b)
  {
  }

  lemma LargerMoves(a: nat, m: nat, b: nat, c: nat)
    requires a <= m <= Larger(a, b) && b <= c
    ensures m <= Larger(a, c) && Larger(m, c) == Larger(a, c)
  {
  }

  lemma LargerAgain(a: nat, m: nat, b: nat)
    requires a <= m <= Larger(a, b)
    ensures Larger(m, b) == Larger(a, b) && (b <= m ==> Larger(m, b) == m)
  {
  }

  function Smaller(a: nat, b: nat): nat {
    if a < b then a else b
  }

  /** Sector k gets the bytes w from byte o on; of its other bytes, those of the file stay. */
  lemma PutBytes(data: seq<Sector>, n: nat, k: nat, o: nat, w: seq<byte>, b: Sector)
    requires n <= |data| * 512 && k < |data| && o + |w| <= 512 && k * 512 + o <= n
    requires forall j | o <= j < o + |w| :: b[j] == w[j - o]
    requires forall j | 0 <= j < 512 && k * 512 + j < n && !(o <= j < o + |w|) :: b[j] == data[k][j]
    ensures Larger(n, k * 512 + o + |w|) <= |data| * 512
    ensures BytesOf(data[k := b], Larger(n, k * 512 + o + |w|)) == Overwrite(BytesOf(data, n), k * 512 + o, w)
  {
    var m := Larger(n, k * 512 + o + |w|);
    var r := Overwrite(BytesOf(data, n), k * 512 + o, w);
    forall i | 0 <= i < m
      ensures ByteAt(data[k := b], i) == r[i]
    {
      if i / 512 == k {
        assert i == k * 512 + i % 512;
      }
    }
  }

  /** c whole sectors are written from sector k on. */
  lemma DirectBytes(data: seq<Sector>, n: nat, k: nat, w: seq<byte>, c: nat)
    requires n <= |data| * 512 && |w| == c * 512 && k + c <= |data| && k * 512 <= n
    ensures Larger(n, k * 512 + c * 512) <= |data| * 512
    ensures BytesOf(Spliced(data, k, Chunks(w, c)), Larger(n, k * 512 + c * 512))
         == Overwrite(BytesOf(data, n), k * 512, w)
  {
    var m := Larger(n, k * 512 + c * 512);
    var d, r := Spliced(data, k, Chunks(w, c)), Overwrite(BytesOf(data, n), k * 512, w);
    forall i | 0 <= i < m
      ensures ByteAt(d, i) == r[i]
    {
      var q := i / 512;
      if k <= q < k + c {
        assert Chunks(w, c)[q - k][i % 512] == w[(q - k) * 512 + i % 512];
      }
    }
  }

  /** More sectors do not change the bytes. */
  lemma PrefixBytes(d: seq<Sector>, data: seq<Sector>, n: nat)
    requires d <= data && n <= |d| * 512
    ensures BytesOf(data, n) == BytesOf(d, n)
  {
  }

  /** The sectors e hold the first n bytes of the sectors d, overwritten with w from byte p on. */
  ghost predicate Wrote(d: seq<Sector>, n: nat, p: nat, w: seq<byte>, e: seq<Sector>) {
    && p <= n <= |d| * 512 && Larger(n, p + |w|) <= |e| * 512
    && BytesOf(e, Larger(n, p + |w|)) == Overwrite(BytesOf(d, n), p, w)
  }

  lemma DirectWrote(d: seq<Sector>, n: nat, k: nat, w: seq<byte>, cc: nat)
    requires n <= |d| * 512 && |w| == cc * 512 && k + cc <= |d| && k * 512 <= n
    ensures Wrote(d, n, k * 512, w, Spliced(d, k, Chunks(w, cc)))
  {
    DirectBytes(d, n, k, w, cc);
  }

  /** Sectors added behind d make no difference. */
  lemma WrotePrefix(d: seq<Sector>, d': seq<Sector>, n: nat, p: nat, w: seq<byte>, e: seq<Sector>)
    requires d <= d' && n <= |d| * 512 && Wrote(d', n, p, w, e)
    ensures Wrote(d, n, p, w, e)
  {
    PrefixBytes(d, d', n);
  }

  lemma WroteFacts(d: seq<Sector>, n: nat, p: nat, w: seq<byte>, e: seq<Sector>)
    requires Wrote(d, n, p, w, e)
    ensures p <= n <= |d| * 512 && Larger(n, p + |w|) <= |e| * 512
    ensures BytesOf(e, Larger(n, p + |w|)) == Overwrite(BytesOf(d, n), p, w)
  {
  }

  lemma LongerBytes(d: seq<Sector>, data: seq<Sector>, n: nat, m: nat)
    requires d <= data && n <= |d| * 512 && n <= m <= |data| * 512
    ensures BytesOf(data, m)[..n] == BytesOf(d, n)
  {
  }

  lemma FewerBytes(data: seq<Sector>, m: nat, n: nat, p: nat)
    requires p <= n <= |data| * 512 && m <= |data| && p <= m * 512
    ensures BytesOf(data[..m], p) == BytesOf(data, n)[..p]
  {
  }

  /** mem_cpy() into a part of an array. */
  method MemCpy(dst: array<byte>, at: nat, src: seq<byte>)
    requires at + |src| <= dst.Length
    modifies dst
    ensures forall j | 0 <= j < dst.Length :: dst[j] == if at <= j < at + |src| then src[j - at] else old(dst[j])
  {
    forall j | at <= j < at + |src| {
      dst[j] := src[j - at];
    }
  }
}
