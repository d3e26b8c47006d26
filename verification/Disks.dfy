/** The storage device behind disk_read() and disk_write(): numbered sectors of SS bytes, and a
    script of the outcomes of the next transfers.  An empty script is an infallible device. */
module Disks {

  const SS: nat := 512

  type byte = x: int | 0 <= x < 256

  type Sector = s: seq<byte> | |s| == 512 witness seq(512, _ => 0)

  /** What one transfer does.  A transfer that faults leaves arbitrary bytes in its target. */
  datatype Outcome = Pass | Fault(junk: int -> byte)

  /** What is left of the script after n transfers. */
  function Dropped(s: seq<Outcome>, n: nat): seq<Outcome> {
    if n <= |s| then s[n..] else []
  }

  class Disk {
    const size: nat
    var sec: seq<Sector>
    var script: seq<Outcome>

    constructor (contents: seq<Sector>, outcomes: seq<Outcome>)
      ensures sec == contents && script == outcomes && size == |contents|
    {
      size := |contents|;
      sec := contents;
      script := outcomes;
    }

    method Next() returns (o: Outcome)
      modifies this`script
      ensures |old(script)| == 0 ==> o.Pass? && |script| == 0
      ensures |old(script)| != 0 ==> o == old(script)[0] && script == old(script)[1..]
    {
      if |script| == 0 {
        o := Pass;
      } else {
        o, script := script[0], script[1..];
      }
    }

    /** disk_read(): fill buff[at..at + count * SS] from the given sectors. */
    method Read(buff: array<byte>, at: nat, sector: nat, count: nat) returns (ok: bool)
      requires at + count * 512 <= buff.Length
      modifies buff, this`script
      ensures |old(script)| == 0 ==> |script| == 0 && ok == (sector + count <= |sec|)
      ensures |old(script)| != 0 ==> script == old(script)[1..]
      ensures |old(script)| != 0 ==> ok == (old(script)[0].Pass? && sector + count <= |sec|)
      ensures ok ==> sector + count <= |sec|
      ensures ok ==> forall j | at <= j < at + count * 512 :: buff[j] == sec[sector + (j - at) / 512][(j - at) % 512]
      ensures forall j | 0 <= j < at || at + count * 512 <= j < buff.Length :: buff[j] == old(buff[j])
    {
      var o := Next();
      ok := o.Pass? && sector + count <= |sec|;
      if ok {
        forall j | at <= j < at + count * 512 {
          buff[j] := sec[sector + (j - at) / 512][(j - at) % 512];
        }
      } else if o.Fault? {
        forall j | at <= j < at + count * 512 {
          buff[j] := o.junk(j);
        }
      }
    }

    /** disk_write(): store `count` sectors of `src`. */
    method Write(src: seq<byte>, sector: nat, count: nat) returns (ok: bool)
      requires |src| == count * 512
      modifies this`sec, this`script
      ensures |old(script)| == 0 ==> |script| == 0 && ok == (sector + count <= |sec|)
      ensures |old(script)| != 0 ==> script == old(script)[1..]
      ensures |old(script)| != 0 ==> ok == (old(script)[0].Pass? && sector + count <= |sec|)
      ensures |sec| == |old(sec)|
      ensures ok ==> sector + count <= |sec|
      ensures ok ==> forall s | sector <= s < sector + count :: sec[s] == src[(s - sector) * 512..][..512]
      ensures ok && count == 1 ==> sec == old(sec)[sector := src]
      ensures forall s | 0 <= s < |sec| && !(sector <= s < sector + count) :: sec[s] == old(sec)[s]
    {
      var o := Next();
      ok := o.Pass? && sector + count <= |sec|;
      var was := sec;
      if ok {
        sec := seq(|was|, s requires 0 <= s < |was| =>
          if sector <= s < sector + count then src[(s - sector) * 512..][..512] else was[s]);
        assert count == 1 ==> src[0 * 512..][..512] == src;
      } else if o.Fault? {
        sec := seq(|was|, s requires 0 <= s < |was| =>
          if sector <= s < sector + count then seq(512, i => o.junk((s - sector) * 512 + i)) else was[s]);
      }
    }
  }
}
