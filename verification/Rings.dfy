/** Two ring buffers that one side fills and the other side empties: the circular DMA buffer of the UART
    (connector_uart_dma.cpp), and the log of trigger events (tooth_logger.cpp, tunerstudio.cpp). */
module Rings {
  import opened Disks
  import opened Volumes
  import opened Layout

  /** Slot k % n of the ring holds item k of the stream, for the items from lo on. */
  ghost predicate RingHolds<T>(ring: seq<T>, stream: seq<T>, lo: nat)
    requires 0 < |ring|
  {
    forall k | lo <= k < |stream| :: ring[k % |ring|] == stream[k]
  }

  /** One more item overwrites the slot of an item that was read, if fewer than n are unread. */
  lemma Overwrites<T>(ring: seq<T>, stream: seq<T>, lo: nat, x: T)
    requires 0 < |ring| && RingHolds(ring, stream, lo) && lo <= |stream| && |stream| - lo < |ring|
    ensures RingHolds(ring[|stream| % |ring| := x], stream + [x], lo)
  {
    var n, m := |ring|, |stream|;
    forall k | lo <= k < m
      ensures k % n != m % n
    {
      Distance(k, m, n);
    }
  }

  /** The same, with the place of the next item given by a number modulo a constant. */
  lemma OverwritesAt<T>(ring: seq<T>, stream: seq<T>, lo: nat, x: T, i: nat)
    requires 0 < |ring| && RingHolds(ring, stream, lo) && lo <= |stream| && |stream| - lo < |ring|
    requires i == Rem(|stream|, |ring|)
    ensures i < |ring| && RingHolds(ring[i := x], stream + [x], lo)
  {
    Overwrites(ring, stream, lo, x);
  }

  /** The items of `part` are the last ones of `all`. */
  ghost predicate Tail<T>(part: seq<T>, all: seq<T>) {
    |part| <= |all| && part == all[|all| - |part|..]
  }

  lemma TailMore<T>(part: seq<T>, all: seq<T>, x: T)
    requires Tail(part, all)
    ensures Tail(part + [x], all + [x])
  {
  }

  lemma PrefixMore<T>(s: seq<T>, t: seq<T>)
    requires s <= t && |s| < |t|
    ensures s + [t[|s|]] <= t
  {
  }

  lemma Shorter<T>(ring: seq<T>, stream: seq<T>, lo: nat, hi: nat)
    requires 0 < |ring| && RingHolds(ring, stream, lo) && lo <= hi
    ensures RingHolds(ring, stream, hi)
  {
  }

  lemma Distance(k: nat, m: nat, n: nat)
    requires k < m < k + n
    ensures Rem(k, n) != Rem(m, n)
  {
    if Rem(k, n) + (m - k) < n {
      Within(k, m - k, n);
    } else {
      Divided(k, n);
      OneMore(Quot(k, n), n);
      Unique(Quot(k, n) + 1, Rem(k, n) + (m - k) - n, n);
    }
  }

  // ---------------------------------------------------------------- UART

  function Slot(k: nat): nat {
    k % 32
  }

  class UartDma {
    const dmaBuffer: array<byte>
    var remaining: nat     // the transaction size the DMA stream counts down
    var readPos: nat
    var fifo: seq<byte>    // the input queue
    const capacity: nat
    ghost var received: seq<byte>   // every byte the DMA wrote
    ghost var passed: seq<byte>     // every byte put into the queue

    /** What was passed on is what was received, from the start and in order; the rest is in the buffer. */
    ghost predicate Valid()
      reads this, dmaBuffer
    {
      && dmaBuffer.Length == 32
      && 1 <= remaining <= 32 && 32 - remaining == Slot(|received|)
      && passed <= received && |received| - |passed| < 32
      && readPos == Slot(|passed|)
      && RingHolds(dmaBuffer[..], received, |passed|)
      && Tail(fifo, passed) && |fifo| <= capacity
    }

    constructor (room: nat)
      ensures Valid() && received == [] && capacity == room && fresh(dmaBuffer)
    {
      dmaBuffer := new byte[32];
      remaining, readPos, fifo, capacity, received, passed := 32, 0, [], room, [], [];
    }

    lemma SlotIsRem(k: nat)
      ensures Slot(k) == Rem(k, 32) < 32 && Slot(k + 1) == if Slot(k) == 31 then 0 else Slot(k) + 1
    {
    }

    /** The DMA stream writes the next byte. */
    method Receive(b: byte)
      requires Valid() && |received| - |passed| < 31
      modifies this`remaining, this`received, dmaBuffer
      ensures Valid() && received == old(received) + [b] && passed == old(passed) && fifo == old(fifo)
    {
      hide RingHolds, Tail, Slot;
      SlotIsRem(|received|);
      OverwritesAt(dmaBuffer[..], received, |passed|, b, 32 - remaining);
      dmaBuffer[32 - remaining] := b;
      remaining := if remaining == 1 then 32 else remaining - 1;
      received := received + [b];
    }

    lemma Ahead(p: nat, r: nat)
      requires p <= r < p + 32
      ensures r - p == Slot(r) - Slot(p) + if Slot(r) < Slot(p) then 32 else 0
      ensures Slot(Slot(p)) == Slot(p)
    {
    }

    lemma NextSlot(i: nat, p: nat)
      requires Slot(i) == Slot(p)
      ensures Slot(i + 1) == Slot(p + 1)
    {
    }

    lemma InSlot(ring: seq<byte>, all: seq<byte>, lo: nat, k: nat)
      requires |ring| == 32 && RingHolds(ring, all, lo) && lo <= k < |all|
      ensures Slot(k) < 32 && ring[Slot(k)] == all[k]
    {
    }

    /** iqPutI() */
    method QueuePut(b: byte) returns (ok: bool)
      modifies this`fifo
      ensures ok <==> old(|fifo|) < capacity
      ensures fifo == if ok then old(fifo) + [b] else old(fifo)
    {
      ok := |fifo| < capacity;
      if ok {
        fifo := fifo + [b];
      }
    }

    /** The reader takes the oldest byte from the queue. */
    method QueueGet() returns (b: byte)
      requires Valid() && fifo != []
      modifies this`fifo
      ensures Valid() && old(fifo) == [b] + fifo
    {
      b, fifo := fifo[0], fifo[1..];
    }

    /** tsCopyDataFromDMA(): as many bytes as the queue has room for are passed on, the next ones in order. */
    method CopyDataFromDma()
      requires Valid()
      modifies this`readPos, this`fifo, this`passed
      ensures Valid() && received == old(received)
      ensures |passed| == if |received| - |old(passed)| <= capacity - |old(fifo)| then |received|
                          else |old(passed)| + (capacity - |old(fifo)|)
    {
      hide Slot, RingHolds, Tail;
      ghost var ring := dmaBuffer[..];
      var dmaPos := 32 - remaining;
      if dmaPos < readPos {
        dmaPos := dmaPos + 32;
      }
      Ahead(|passed|, |received|);
      var newReadPos: nat, i: nat := readPos, readPos;
      ghost var n, k := |passed|, |passed|;
      while i < dmaPos
        invariant readPos == old(readPos) <= i <= dmaPos && dmaPos - i == |received| - k
        invariant n <= k == |passed| && passed <= received
        invariant newReadPos == Slot(i) == Slot(k)
        invariant k - n == |fifo| - |old(fifo)| && |fifo| <= capacity && Tail(fifo, passed)
      {
        InSlot(ring, received, n, k);
        label before:
        var ok := QueuePut(dmaBuffer[newReadPos]);
        if !ok {
          break;
        }
        TailMore(old@before(fifo), passed, dmaBuffer[newReadPos]);
        PrefixMore(passed, received);
        passed := passed + [dmaBuffer[newReadPos]];
        NextSlot(i, k);
        i, k := i + 1, k + 1;
        newReadPos := Slot(i);
      }
      readPos := newReadPos;
      Shorter(ring, received, n, k);
    }
  }

  // ---------------------------------------------------------------- the log of trigger events

  /** A record: the time in microseconds, the levels of both inputs, whether it marks top dead center, and
      whether the trigger is synchronized. */
  datatype Record = Record(timestamp: nat, priLevel: bool, secLevel: bool, trigger: bool, sync: bool)

  const EMPTY: Record := Record(0, false, false, false, false)

  datatype Tooth = PrimaryFalling | PrimaryRising | SecondaryFalling | SecondaryRising | OtherTooth

  function Index(k: nat): nat {
    k % 500
  }

  /** Number of the oldest of n records that the buffer still holds. */
  function Oldest(n: nat): nat {
    if n < 500 then 0 else n - 500
  }

  /** What slot i holds after the records `logged`: the newest of those that went there, if any. */
  function Newest(logged: seq<Record>, i: nat): Record {
    if |logged| <= i then EMPTY else logged[|logged| - 1 - Index(|logged| - 1 - i)]
  }

  /** What a request returns after the records `logged`, when the cursor of the reader stands at t: the slots
      from there up to the one to be written next, or up to the end of the buffer. */
  function Answer(logged: seq<Record>, t: nat): (chunk: seq<Record>)
    requires t < 500
    ensures |chunk| == if t <= Index(|logged|) then Index(|logged|) - t else 500 - t
  {
    seq(if t <= Index(|logged|) then Index(|logged|) - t else 500 - t, j requires 0 <= j => Newest(logged, t + j))
  }

  lemma SmallIndex(k: nat)
    ensures k < 500 ==> Index(k) == k
  {
  }

  lemma NewestIs(logged: seq<Record>, k: nat)
    requires Oldest(|logged|) <= k < |logged|
    ensures Newest(logged, Index(k)) == logged[k]
  {
    assert k % 500 + k / 500 * 500 == k;
    assert (|logged| - 1 - k) + k / 500 * 500 == |logged| - 1 - k % 500;
    assert Index(|logged| - 1 - Index(k)) == |logged| - 1 - k;
  }

  /** In step with the writer, the reader gets the records that follow those it got. */
  lemma AnswerInStep(logged: seq<Record>, n: nat)
    requires n <= |logged| < n + 500
    ensures var chunk := Answer(logged, Index(n));
      && n + |chunk| <= |logged| && chunk == logged[n..n + |chunk|]
      && (chunk == [] <==> n == |logged|)
      && Index(n + |chunk|) == if Index(n) <= Index(|logged|) then Index(|logged|) else 0
  {
    var t, chunk := Index(n), Answer(logged, Index(n));
    Gap(n, |logged|);
    forall j | 0 <= j < |chunk|
      ensures chunk[j] == logged[n + j]
    {
      Gap(n, n + j);
      NewestIs(logged, n + j);
    }
  }

  lemma Gap(n: nat, k: nat)
    requires n <= k < n + 500
    ensures if Index(n) + (k - n) < 500 then Index(k) == Index(n) + (k - n) else Index(k) == Index(n) + (k - n) - 500
  {
  }

  /** The first answer of a session whose records so far are `logged`, when the cursor stands at t: with a
      cursor that is not at the start, records get lost, or empty ones are returned in their place. */
  lemma FirstAnswer(logged: seq<Record>, t: nat)
    requires |logged| < 500 && t < 500
    ensures Answer(logged, t) ==
            if t <= |logged| then logged[t..] else seq(500 - t, _ => EMPTY)
    ensures Answer(logged, t) == logged <==>
            t == 0 || (|logged| < t == 500 - |logged| && forall x | x in logged :: x == EMPTY)
  {
    var chunk := Answer(logged, t);
    SmallIndex(|logged|);
    forall j | 0 <= j < |chunk|
      ensures chunk[j] == if t <= |logged| then logged[t + j] else EMPTY
    {
      assert chunk[j] == Newest(logged, t + j);
      if t <= |logged| {
        SmallIndex(t + j);
        NewestIs(logged, t + j);
      }
    }
    if t > |logged| && chunk == logged {
      assert forall j | 0 <= j < |logged| :: logged[j] == chunk[j];
    }
    if t > |logged| && |chunk| == |logged| && forall x | x in logged :: x == EMPTY {
      assert forall j | 0 <= j < |logged| :: logged[j] in logged;
    }
  }

  class ToothLogger {
    const buffer: array<Record>
    var nextIdx: nat
    var enabled: bool
    var trigger1: bool
    var trigger2: bool
    var transmitted: nat           // cursor of the reader
    ghost var logged: seq<Record>  // the records of this session
    ghost var sent: seq<Record>    // those of them that were returned, while the reader is in step

    /** The buffer holds the newest records of the session, and empty ones where there are none yet. */
    ghost predicate Logging()
      reads this, buffer
    {
      && buffer.Length == 500 && transmitted < 500 && nextIdx == Index(|logged|)
      && RingHolds(buffer[..], logged, Oldest(|logged|))
      && forall i | |logged| <= i < 500 :: buffer[i] == EMPTY
    }

    /** What was returned is what was logged, from the start and in order; the rest is in the buffer. */
    ghost predicate Valid()
      reads this, buffer
    {
      Logging() && sent <= logged && |logged| - |sent| < 500 && transmitted == Index(|sent|)
    }

    constructor ()
      ensures Valid() && logged == sent == [] && transmitted == 0 && !enabled && fresh(buffer)
    {
      buffer := new Record[500](_ => EMPTY);
      nextIdx, enabled, trigger1, trigger2, transmitted, logged, sent := 0, false, false, false, 0, [], [];
    }

    lemma InBuffer()
      requires Logging()
      ensures buffer.Length == 500 && transmitted < 500
    {
    }

    lemma InStep()
      requires Valid()
      ensures Logging() && buffer.Length == 500 && transmitted < 500
    {
    }

    /** EnableToothLogger(): a new session.  The cursor of the reader is not set back. */
    method Enable()
      requires buffer.Length == 500 && transmitted < 500
      modifies this`nextIdx, this`enabled, this`logged, this`sent, buffer
      ensures Logging() && enabled && logged == sent == [] && (transmitted == 0 ==> Valid())
    {
      forall i | 0 <= i < 500 {
        buffer[i] := EMPTY;
      }
      nextIdx, enabled, logged, sent := 0, true, [], [];
    }

    /** DisableToothLogger() */
    method Disable()
      modifies this`enabled
      ensures !enabled
    {
      enabled := false;
    }

    lemma InRing(k: nat)
      ensures Index(k) == Rem(k, 500) < 500
      ensures Index(k + 1) == if Index(k) == 499 then 0 else Index(k) + 1
    {
    }

    /** SetNextCompositeEntry(): the reader stays in step while fewer than 500 records are unread. */
    method SetNextEntry(nowUs: nat, isTdc: bool, sync: bool)
      requires Logging()
      modifies this`nextIdx, this`logged, buffer
      ensures Logging() && (old(Valid()) && |old(logged)| - |sent| < 499 ==> Valid())
      ensures logged == old(logged) + [Record(nowUs % 0x1_0000_0000, trigger1, trigger2, isTdc, sync)]
    {
      ghost var x, n := Record(nowUs % 0x1_0000_0000, trigger1, trigger2, isTdc, sync), |logged|;
      hide RingHolds, Index;
      InRing(n);
      Shorter(buffer[..], logged, Oldest(n), Oldest(n + 1));
      OverwritesAt(buffer[..], logged, Oldest(n + 1), x, nextIdx);
      SmallIndex(n);
      buffer[nextIdx] := Record(nowUs % 0x1_0000_0000, trigger1, trigger2, isTdc, sync);
      nextIdx := nextIdx + 1;
      logged := logged + [x];
      if nextIdx >= 500 {
        nextIdx := 0;
      }
    }

    /** LogTriggerTooth() */
    method LogTooth(tooth: Tooth, nowUs: nat, sync: bool)
      requires Logging()
      modifies this`trigger1, this`trigger2, this`nextIdx, this`logged, buffer
      ensures Logging() && (old(Valid()) && |old(logged)| - |sent| < 499 ==> Valid())
      ensures !enabled ==> logged == old(logged) && trigger1 == old(trigger1) && trigger2 == old(trigger2)
      ensures enabled ==> logged == old(logged) + [Record(nowUs % 0x1_0000_0000, trigger1, trigger2, false, sync)]
      ensures enabled ==> trigger1 == (tooth.PrimaryRising? || (old(trigger1) && !tooth.PrimaryFalling?))
      ensures enabled ==> trigger2 == (tooth.SecondaryRising? || (old(trigger2) && !tooth.SecondaryFalling?))
    {
      if !enabled {
        return;
      }
      match tooth {
        case PrimaryFalling => trigger1 := false;
        case PrimaryRising => trigger1 := true;
        case SecondaryFalling => trigger2 := false;
        case SecondaryRising => trigger2 := true;
        case OtherTooth =>
      }
      SetNextEntry(nowUs, false, sync);
    }

    /** LogTriggerTopDeadCenter() */
    method LogTopDeadCenter(nowUs: nat, sync: bool)
      requires Logging()
      modifies this`nextIdx, this`logged, buffer
      ensures Logging() && (old(Valid()) && |old(logged)| - |sent| < 499 ==> Valid())
      ensures logged == old(logged) +
                        if enabled then [Record(nowUs % 0x1_0000_0000, trigger1, trigger2, true, sync)] else []
    {
      if !enabled {
        return;
      }
      SetNextEntry(nowUs, true, sync);
    }

    /** The request for the records since the last one.  It starts a session if there is none.  In step, it
        returns the next records; after a request that starts a session the reader is in step. */
    method GetComposite() returns (chunk: seq<Record>)
      requires Logging()
      modifies this`transmitted, this`sent, this`nextIdx, this`enabled, this`logged, buffer
      ensures Logging() && enabled && logged == if old(enabled) then old(logged) else []
      ensures chunk == Answer(logged, old(transmitted))
      ensures transmitted == if old(transmitted) <= Index(|logged|) then Index(|logged|) else 0
      ensures old(enabled) && old(Valid()) ==> Valid() && sent == old(sent) + chunk && (chunk == [] ==> sent == logged)
      ensures !old(enabled) ==> Valid() && sent == []
    {
      ghost var session := enabled && Valid();
      if !enabled {
        Enable();
      }
      ReadsAnswer(transmitted);
      if session {
        AnswerInStep(logged, |sent|);
      }
      var currentEnd := nextIdx;
      chunk := [];
      if currentEnd > transmitted {
        chunk := buffer[transmitted..currentEnd];
        transmitted := currentEnd;
      } else if currentEnd < transmitted {
        chunk := buffer[transmitted..];
        transmitted := 0;
      }
      if session {
        sent := sent + chunk;
      }
    }

    /** The slots from t on hold what Answer says. */
    lemma ReadsAnswer(t: nat)
      requires Logging() && t < 500
      ensures Answer(logged, t) == if t <= nextIdx then buffer[t..nextIdx] else buffer[t..]
    {
      forall i | 0 <= i < 500
        ensures buffer[i] == Newest(logged, i)
      {
        if i < |logged| {
          var k := |logged| - 1 - Index(|logged| - 1 - i);
          assert k % 500 == i;
          assert buffer[..][k % 500] == logged[k];
        }
      }
    }
  }

  /** Log the n records with the times 0 .. n - 1. */
  method LogTimes(log: ToothLogger, n: nat)
    requires log.Logging() && log.enabled && log.logged == [] && n < 500
    modifies log`trigger1, log`trigger2, log`nextIdx, log`logged, log.buffer
    ensures log.Logging() && |log.logged| == n
    ensures forall j | 0 <= j < n :: log.logged[j].timestamp == j
  {
    hide ToothLogger.Logging, ToothLogger.Valid;
    for i := 0 to n
      invariant log.Logging() && log.enabled && |log.logged| == i
      invariant forall j | 0 <= j < i :: log.logged[j].timestamp == j
    {
      log.LogTooth(PrimaryRising, i, true);
    }
  }

  /** A second session: the cursor stands where the first one left it, and the first ten records of the second
      one are not returned. */
  method LosesRecords() returns (chunk: seq<Record>, ghost logged: seq<Record>)
    ensures |logged| == 20 && forall j | 0 <= j < 20 :: logged[j].timestamp == j
    ensures |chunk| == 10 && forall j | 0 <= j < 10 :: chunk[j].timestamp == 10 + j
    ensures chunk == logged[10..] && !(chunk <= logged)
  {
    hide ToothLogger.Logging, ToothLogger.Valid, Index, Answer;
    var log := new ToothLogger();
    log.InStep();
    log.Enable();
    LogTimes(log, 10);
    SmallIndex(10);
    chunk := log.GetComposite();
    log.Disable();
    log.InBuffer();
    log.Enable();
    LogTimes(log, 20);
    chunk := log.GetComposite();
    logged := log.logged;
    FirstAnswer(logged, 10);
    assert chunk[0].timestamp == 10 && logged[0].timestamp == 0;
  }
}
