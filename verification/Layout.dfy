/** Where the bytes of a file lie: its clusters in chain order, the sectors of a cluster in a row. */
module Layout {
  import opened Volumes
  import opened Chains

  // Multiplication and division by the cluster size, as functions of their own.

  function Prod(a: nat, b: nat): nat {
    a * b
  }

  function Rem(k: nat, c: nat): (r: nat)
    requires 0 < c
    ensures r < c
  {
    k % c
  }

  lemma Divided(k: nat, c: nat)
    requires 0 < c
    ensures k == Prod(Quot(k, c), c) + Rem(k, c)
  {
  }

  lemma ProdGrows(a: nat, b: nat, c: nat)
    requires a < b
    ensures Prod(a, c) + c <= Prod(b, c)
  {
    assert b * c == (a + 1) * c + (b - a - 1) * c;
    assert (a + 1) * c == a * c + c;
    assert (b - a - 1) * c >= 0;
  }

  lemma NoClusters(c: nat)
    ensures Prod(0, c) == 0
  {
  }

  lemma OneMore(m: nat, c: nat)
    ensures Prod(m + 1, c) == Prod(m, c) + c
  {
  }

  /** Quotient and remainder are determined by their equation. */
  lemma Unique(q: nat, r: nat, c: nat)
    requires r < c
    ensures Quot(Prod(q, c) + r, c) == q && Rem(Prod(q, c) + r, c) == r
  {
    var k := Prod(q, c) + r;
    Divided(k, c);
    if Quot(k, c) < q {
      ProdGrows(Quot(k, c), q, c);
    } else if q < Quot(k, c) {
      ProdGrows(q, Quot(k, c), c);
    }
  }

  /** Moving on by j within the same cluster. */
  lemma Within(k: nat, j: nat, c: nat)
    requires 0 < c && Rem(k, c) + j < c
    ensures Quot(k + j, c) == Quot(k, c) && Rem(k + j, c) == Rem(k, c) + j
  {
    Divided(k, c);
    Unique(Quot(k, c), Rem(k, c) + j, c);
  }

  /** Moving on to the start of the next cluster. */
  lemma Across(k: nat, j: nat, c: nat)
    requires 0 < c && Rem(k, c) + j == c
    ensures Quot(k + j, c) == Quot(k, c) + 1 && Rem(k + j, c) == 0
  {
    Divided(k, c);
    assert Prod(Quot(k, c) + 1, c) == Prod(Quot(k, c), c) + c;
    Unique(Quot(k, c) + 1, 0, c);
  }

  /** The step to a new cluster, and the step within one. */
  lemma StepBack(k: nat, c: nat)
    requires 0 < c && 0 < k
    ensures Rem(k, c) == 0 ==> Quot(k - 1, c) + 1 == Quot(k, c)
    ensures Rem(k, c) != 0 ==> Quot(k - 1, c) == Quot(k, c)
  {
    if Rem(k - 1, c) + 1 < c {
      Within(k - 1, 1, c);
    } else {
      Across(k - 1, 1, c);
    }
  }

  lemma InRange(k: nat, n: nat, c: nat)
    requires 0 < c
    ensures k < Prod(n, c) <==> Quot(k, c) < n
  {
    Divided(k, c);
    if Quot(k, c) < n {
      ProdGrows(Quot(k, c), n, c);
    } else if n < Quot(k, c) {
      ProdGrows(n, Quot(k, c), c);
    }
  }

  /** The last of n clusters of c sectors each. */
  lemma LastOf(k: nat, n: nat, c: nat)
    requires 0 < n && 0 < c && k < Prod(n, c) <= k + c
    ensures Quot(k, c) + 1 == n
  {
    assert Prod(n, c) == Prod(n - 1, c) + c;
    Unique(n - 1, k - Prod(n - 1, c), c);
  }

  /** Dividing a byte position by the cluster size in bytes. */
  lemma ClusterBytes(p: nat, c: nat)
    requires 0 < c
    ensures Quot(p, 512 * c) == Quot(p / 512, c)
    ensures p - Rem(p, 512 * c) == 512 * Prod(Quot(p / 512, c), c)
  {
    var q, r := Quot(p / 512, c), Rem(p / 512, c);
    Divided(p / 512, c);
    assert Prod(q, 512 * c) == 512 * Prod(q, c);
    Unique(q, 512 * r + p % 512, 512 * c);
  }

  lemma BaseBelow(t: nat, p: nat, b: nat)
    requires 0 < b && Quot(t, b) >= Quot(p, b)
    ensures p - Rem(p, b) <= t
  {
    Divided(t, b);
    Divided(p, b);
    if Quot(t, b) > Quot(p, b) {
      ProdGrows(Quot(p, b), Quot(t, b), b);
    }
  }

  /** A sector of cluster number i. */
  lemma InNumber(i: nat, k: nat, c: nat)
    requires Prod(i, c) <= k < Prod(i, c) + c
    ensures Quot(k, c) == i && Rem(k, c) == k - Prod(i, c)
  {
    Unique(i, k - Prod(i, c), c);
  }

  // ---------------------------------------------------------------- clusters and sectors

  /** Sector s belongs to cluster c. */
  ghost predicate InCluster(fs: FatFs, s: int, c: nat) {
    fs.SectorOf(c) <= s < fs.SectorOf(c) + fs.cSize
  }

  lemma {:induction false} SectorsGrow(fs: FatFs, c: nat, d: nat)
    requires 2 <= c < d
    ensures fs.SectorOf(c) + fs.cSize <= fs.SectorOf(d)
  {
    if c + 1 < d {
      SectorsGrow(fs, c, d - 1);
    }
  }

  lemma OneCluster(fs: FatFs, s: int, c: nat, d: nat)
    requires 2 <= c && 2 <= d && InCluster(fs, s, c) && InCluster(fs, s, d)
    ensures c == d
  {
    if c < d {
      SectorsGrow(fs, c, d);
    } else if d < c {
      SectorsGrow(fs, d, c);
    }
  }

  lemma ClusterOnDisk(fs: FatFs, c: nat, s: int)
    requires fs.Shape() && 2 <= c < fs.nFatEnt && InCluster(fs, s, c)
    ensures fs.dataBase <= s < fs.disk.size
  {
    if c + 1 < fs.nFatEnt {
      SectorsGrow(fs, c, fs.nFatEnt);
    }
  }

  /** The product clst2sect() computes is the first sector of the cluster. */
  lemma {:induction false} SectorOfIsProduct(fs: FatFs, c: nat)
    requires 2 <= c
    ensures fs.SectorOf(c) == fs.dataBase + Prod(fs.cSize, c - 2)
    decreases c
  {
    if c > 2 {
      SectorOfIsProduct(fs, c - 1);
      assert fs.cSize * (c - 2) == fs.cSize * (c - 3) + fs.cSize;
    }
  }

  /** So many clusters fit on the disk. */
  lemma ClustersFit(fs: FatFs, n: nat)
    requires fs.Shape() && n + 2 <= fs.nFatEnt
    ensures Prod(n, fs.cSize) <= fs.disk.size
  {
    SectorOfIsProduct(fs, fs.nFatEnt);
    assert Prod(n, fs.cSize) == Prod(fs.cSize, n);
    if n + 2 < fs.nFatEnt {
      SectorsGrow(fs, n + 2, fs.nFatEnt);
      SectorOfIsProduct(fs, n + 2);
    }
  }

  /** clst2sect(): first sector of a cluster, 0 for an invalid cluster number. */
  method Clst2Sect(fs: FatFs, clst: nat) returns (sect: nat)
    requires fs.Shape() && clst < 0x1_0000_0000
    ensures sect == if 2 <= clst < fs.nFatEnt then fs.SectorOf(clst) else 0
  {
    var c := Sub32(clst, 2);
    if c >= fs.nFatEnt - 2 {
      return 0;
    }
    SectorOfIsProduct(fs, clst);
    sect := fs.dataBase + Prod(fs.cSize, c);
  }

  /** The sectors of the clusters ch, in order. */
  ghost function Sectors(fs: FatFs, ch: seq<nat>): seq<nat>
    requires 0 < fs.cSize
  {
    seq(Prod(|ch|, fs.cSize), k requires 0 <= k < Prod(|ch|, fs.cSize) =>
      InRange(k, |ch|, fs.cSize);
      fs.SectorOf(ch[Quot(k, fs.cSize)]) + Rem(k, fs.cSize))
  }

  lemma SectorAt(fs: FatFs, ch: seq<nat>, k: nat)
    requires 0 < fs.cSize
    ensures |Sectors(fs, ch)| == Prod(|ch|, fs.cSize)
    ensures k < |Sectors(fs, ch)| <==> Quot(k, fs.cSize) < |ch|
    ensures k < |Sectors(fs, ch)| ==>
              Sectors(fs, ch)[k] == fs.SectorOf(ch[Quot(k, fs.cSize)]) + Rem(k, fs.cSize)
              && InCluster(fs, Sectors(fs, ch)[k], ch[Quot(k, fs.cSize)])
  {
    InRange(k, |ch|, fs.cSize);
  }

  /** The sectors of one cluster lie in a row. */
  lemma SectorRun(fs: FatFs, ch: seq<nat>, k: nat, j: nat)
    requires 0 < fs.cSize && k < |Sectors(fs, ch)| && Rem(k, fs.cSize) + j < fs.cSize
    ensures k + j < |Sectors(fs, ch)| && Sectors(fs, ch)[k + j] == Sectors(fs, ch)[k] + j
  {
    Within(k, j, fs.cSize);
    SectorAt(fs, ch, k);
    SectorAt(fs, ch, k + j);
  }

  lemma SectorsDiffer(fs: FatFs, ch: seq<nat>, j: nat, k: nat)
    requires fs.Shape() && InTable(fs.nFatEnt, ch) && Distinct(ch)
    requires j < k < |Sectors(fs, ch)|
    ensures Sectors(fs, ch)[j] != Sectors(fs, ch)[k]
  {
    SectorAt(fs, ch, j);
    SectorAt(fs, ch, k);
    Divided(j, fs.cSize);
    Divided(k, fs.cSize);
    var p, q := Quot(j, fs.cSize), Quot(k, fs.cSize);
    if Sectors(fs, ch)[j] == Sectors(fs, ch)[k] {
      OneCluster(fs, Sectors(fs, ch)[j], ch[p], ch[q]);
    }
  }

  /** A file's sectors are those of its clusters. */
  lemma SectorsOfClusters(fs: FatFs, ch: seq<nat>, s: nat)
    requires fs.Shape() && InTable(fs.nFatEnt, ch)
    ensures s in Sectors(fs, ch) <==> exists c | c in ch :: InCluster(fs, s, c)
    ensures s in Sectors(fs, ch) ==> fs.dataBase <= s < fs.disk.size
  {
    if s in Sectors(fs, ch) {
      var k :| 0 <= k < |Sectors(fs, ch)| && Sectors(fs, ch)[k] == s;
      SectorAt(fs, ch, k);
      ClusterOnDisk(fs, ch[Quot(k, fs.cSize)], s);
    }
    if c :| c in ch && InCluster(fs, s, c) {
      var i :| 0 <= i < |ch| && ch[i] == c;
      var r := s - fs.SectorOf(c);
      Unique(i, r, fs.cSize);
      SectorAt(fs, ch, Prod(i, fs.cSize) + r);
      assert Sectors(fs, ch)[Prod(i, fs.cSize) + r] == s;
    }
  }

  /** A longer chain has the sectors of the shorter one first. */
  lemma SectorsOfPrefix(fs: FatFs, ch: seq<nat>, m: nat)
    requires 0 < fs.cSize && m <= |ch|
    ensures |Sectors(fs, ch[..m])| == Prod(m, fs.cSize) <= |Sectors(fs, ch)|
    ensures Sectors(fs, ch[..m]) == Sectors(fs, ch)[..Prod(m, fs.cSize)]
  {
    SectorAt(fs, ch, 0);
    SectorAt(fs, ch[..m], 0);
    if m < |ch| {
      ProdGrows(m, |ch|, fs.cSize);
    }
    forall k | 0 <= k < Prod(m, fs.cSize)
      ensures Sectors(fs, ch[..m])[k] == Sectors(fs, ch)[k]
    {
      SectorAt(fs, ch, k);
      SectorAt(fs, ch[..m], k);
    }
  }
}
