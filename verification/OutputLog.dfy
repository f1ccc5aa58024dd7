/** The way of a record to the log file: flowd/atomicio.c, store_put_buf of flowd/store.c,
    and the output queue of flowd/flowd.c. The system calls' answers are parameters. */
module OutputLog {
  import opened Bytes
  import opened Store
  import opened StoreRoundTrip

  const OUTPUT_INITIAL_QLEN := 1024 * 16
  const OUTPUT_MAX_QLEN := 1024 * 512

  /** What write answers: how many bytes it took, or why none. */
  datatype WriteReply = Wrote(n: nat) | Interrupted | WouldBlock | Failed

  /** Writes that take something, or are to be tried once more. */
  ghost predicate Healthy(replies: seq<WriteReply>) {
    forall w <- replies :: !w.Failed? && w != Wrote(0)
  }

  /** The first reply that ends the loop of atomicio early is the given one. */
  ghost predicate EndsWith(replies: seq<WriteReply>, last: WriteReply) {
    exists i :: 0 <= i < |replies| && replies[i] == last && Healthy(replies[..i])
  }

  /** The other calls of one flush: lseek to find out the position, lseek back, ftruncate. */
  datatype Calls = Calls(tellOk: bool, rewindOk: bool, truncateOk: bool)

  class LogFile {
    const isPipe: bool
    var bytes: seq<u8>
    var pos: nat

    ghost predicate AtEnd()
      reads this
    {
      pos == |bytes|
    }

    constructor (isPipe: bool, bytes: seq<u8>)
      ensures this.isPipe == isPipe && this.bytes == bytes && AtEnd()
    {
      this.isPipe := isPipe;
      this.bytes, pos := bytes, |bytes|;
    }

    /** atomicio with write: over any finite run of interrupted and short writes, after
        which a write takes all that is left. */
    method Atomicio(s: seq<u8>, replies: seq<WriteReply>) returns (r: int)
      requires AtEnd()
      modifies this
      ensures AtEnd() && exists k :: 0 <= k <= |s| && bytes == old(bytes) + s[..k] && (r == |s| <==> k == |s|)
      ensures r == |s| || r == 0 || r == -1
      ensures Healthy(replies) ==> r == |s|
      ensures r != |s| ==> EndsWith(replies, if r == -1 then Failed else Wrote(0))
    {
      var done, i := 0, 0;
      while |s| > done
        invariant 0 <= done <= |s| && 0 <= i <= |replies|
        invariant AtEnd() && bytes == old(bytes) + s[..done] && Healthy(replies[..i])
        decreases |replies| - i, |s| - done
      {
        ghost var at := i;
        if i < |replies| { assert replies[..i + 1] == replies[..i] + [replies[i]]; }
        var reply := if i < |replies| then replies[i] else Wrote(|s| - done);
        i := if i < |replies| then i + 1 else i;
        if reply.Interrupted? || reply.WouldBlock? {
          continue;
        }
        if reply.Failed? {
          assert at < |replies| && replies[at] == Failed;
          return -1;
        }
        var n := if reply.n <= |s| - done then reply.n else |s| - done;
        if n == 0 {
          assert at < |replies| && replies[at] == Wrote(0);
          return 0;
        }
        bytes := bytes + s[done..done + n];
        pos := pos + n;
        assert s[..done + n] == s[..done] + s[done..done + n];
        done := done + n;
      }
      assert s[..|s|] == s;
      r := done;
    }

    /** store_put_buf: all of the buffer or nothing, unless the failure is a corrupting
        one. */
    method PutBuf(buf: seq<u8>, replies: seq<WriteReply>, calls: Calls) returns (r: StoreResult<()>)
      requires AtEnd()
      modifies this
      ensures !r.Fault? && (r.Err? ==> r.error in {Io, Eof, IoSeek, Corrupt})
      ensures r.Ok? ==> AtEnd() && bytes == old(bytes) + buf
      ensures r.Err? && r.error != Corrupt ==> AtEnd() && bytes == old(bytes)
      ensures r == Err(Corrupt) ==> old(bytes) <= bytes < old(bytes) + buf
      ensures r == Err(Corrupt) ==> isPipe || !calls.rewindOk || !calls.truncateOk
      ensures r == Err(IoSeek) <==> !isPipe && !calls.tellOk
      ensures r.Err? && r.error != IoSeek && (isPipe || !calls.rewindOk || !calls.truncateOk) ==> r == Err(Corrupt)
      ensures r == Err(Io) ==> EndsWith(replies, Failed)
      ensures r == Err(Eof) ==> EndsWith(replies, Wrote(0))
      ensures Healthy(replies) && (isPipe || calls.tellOk) ==> r.Ok?
    {
      if !isPipe && !calls.tellOk {
        return Err(IoSeek);
      }
      var startpos := pos;
      var w := Atomicio(buf, replies);
      if w == |buf| {
        assert buf[..|buf|] == buf;
        return Ok(());
      }
      if isPipe || !calls.rewindOk {
        return Err(Corrupt);
      }
      pos := startpos;
      if !calls.truncateOk {
        return Err(Corrupt);
      }
      bytes := bytes[..startpos];
      r := if w == -1 then Err(Io) else Err(Eof);
    }
  }

  /** The sizes that the queue takes: its initial size doubled up to five times. */
  ghost predicate QueueSize(n: nat) {
    n in {1024 * 16, 1024 * 32, 1024 * 64, 1024 * 128, 1024 * 256, 1024 * 512}
  }

  lemma Doubles(n: nat)
    requires QueueSize(n)
    ensures OUTPUT_INITIAL_QLEN <= n <= OUTPUT_MAX_QLEN && (n < OUTPUT_MAX_QLEN ==> QueueSize(2 * n))
  {
  }

  datatype EnqueueResult = Queued | Full | Exited

  class OutputQueue {
    var queue: array?<u8>
    var alloc: nat
    var offset: nat

    ghost predicate Valid()
      reads this
    {
      && offset <= alloc <= OUTPUT_MAX_QLEN
      && if queue == null then alloc == 0 else alloc == queue.Length && QueueSize(alloc)
    }

    /** The bytes that wait for a flush. */
    ghost function Contents(): seq<u8>
      requires Valid()
      reads this, queue
    {
      if queue == null then [] else queue[..offset]
    }

    constructor ()
      ensures Valid() && Contents() == [] && queue == null
    {
      queue, alloc, offset := null, 0, 0;
    }

    /** output_flow_enqueue. The queue is full when there is no room below its greatest
        size, or more memory was asked for and refused; Exited is the end of the program
        for want of the first allocation. */
    method Enqueue(f: seq<u8>, mallocOk: bool, reallocOk: nat -> bool) returns (r: EnqueueResult)
      requires Valid()
      modifies this, queue
      ensures Valid() && (queue == old(queue) || fresh(queue))
      ensures Contents() == if r.Queued? then old(Contents()) + f else old(Contents())
      ensures old(offset) + |f| > OUTPUT_MAX_QLEN ==> r.Full?
      ensures r.Full? ==> old(offset) + |f| > OUTPUT_MAX_QLEN || (alloc < old(offset) + |f| && !reallocOk(2 * alloc))
      ensures r.Full? ==> queue != null || |f| > OUTPUT_INITIAL_QLEN
      ensures r.Exited? <==> !mallocOk && old(queue) == null && old(offset) + |f| <= OUTPUT_MAX_QLEN
    {
      if offset + |f| > OUTPUT_MAX_QLEN {
        return Full;
      }
      if queue == null {
        if !mallocOk {
          return Exited;
        }
        queue := new u8[OUTPUT_INITIAL_QLEN](_ => 0);
        alloc := OUTPUT_INITIAL_QLEN;
      }
      var grown := Grow(|f|, reallocOk);
      if !grown {
        return Full;
      }
      Put(f);
      r := Queued;
    }

    /** The loop that doubles the queue; its test for a size beyond the greatest one never
        succeeds. */
    method Grow(len: nat, reallocOk: nat -> bool) returns (ok: bool)
      requires Valid() && queue != null && offset + len <= OUTPUT_MAX_QLEN
      modifies this
      ensures Valid() && queue != null && offset == old(offset) && queue[..offset] == old(queue[..offset])
      ensures queue == old(queue) || fresh(queue)
      ensures if ok then offset + len <= alloc else alloc < offset + len && !reallocOk(2 * alloc)
    {
      while offset + len > alloc
        invariant Valid() && queue != null && offset == old(offset) && queue[..offset] == old(queue[..offset])
        invariant queue == old(queue) || fresh(queue)
        decreases OUTPUT_MAX_QLEN - alloc
      {
        Doubles(alloc);
        var tmpLen := 2 * alloc;
        if tmpLen > OUTPUT_MAX_QLEN {
          assert false;
        }
        if !reallocOk(tmpLen) {
          return false;
        }
        Reallocate(tmpLen);
      }
      ok := true;
    }

    method Reallocate(size: nat)
      requires Valid() && queue != null && alloc < size <= OUTPUT_MAX_QLEN && QueueSize(size)
      modifies this
      ensures Valid() && fresh(queue) && alloc == size && offset == old(offset) && queue[..offset] == old(queue[..offset])
    {
      var bigger := new u8[size](_ => 0);
      Copy(bigger, 0, queue[..alloc]);
      assert bigger[..alloc][..offset] == bigger[..offset];
      queue, alloc := bigger, size;
    }

    method Put(f: seq<u8>)
      requires Valid() && queue != null && offset + |f| <= alloc
      modifies this`offset, queue
      ensures Valid() && queue == old(queue) && queue[..offset] == old(queue[..offset]) + f
    {
      Copy(queue, offset, f);
      assert queue[..offset + |f|] == queue[..offset] + queue[offset..offset + |f|];
      offset := offset + |f|;
    }

    /** output_flow_flush on an open log; an error ends the program. */
    method Flush(file: LogFile, replies: seq<WriteReply>, calls: Calls) returns (r: StoreResult<()>)
      requires Valid() && file.AtEnd()
      modifies this`offset, file
      ensures Valid() && queue == old(queue) && !r.Fault?
      ensures r.Ok? ==> file.AtEnd() && file.bytes == old(file.bytes) + old(Contents()) && Contents() == [] && offset == 0
      ensures r.Err? ==> Contents() == old(Contents())
      ensures r.Err? && r.error != Corrupt ==> file.AtEnd() && file.bytes == old(file.bytes)
      ensures r == Err(Corrupt) ==> old(file.bytes) <= file.bytes < old(file.bytes) + Contents()
      ensures Healthy(replies) && (file.isPipe || calls.tellOk) ==> r.Ok?
    {
      if offset == 0 {
        return Ok(());
      }
      r := file.PutBuf(queue[..offset], replies, calls);
      if r.Ok? {
        offset := 0;
      }
    }

    /** After a flush there is room for any record, whatever memory is refused. */
    method EnqueueAfterFlush(f: seq<u8>, reallocOk: nat -> bool) returns (r: EnqueueResult)
      requires Valid() && queue != null && offset == 0 && |f| <= OUTPUT_INITIAL_QLEN
      modifies this, queue
      ensures Valid() && r.Queued? && Contents() == f && (queue == old(queue) || fresh(queue))
    {
      Doubles(alloc);
      r := Enqueue(f, false, reallocOk);
    }
  }

  // ----- Runs -----

  lemma {:induction false} LogConcat(a: seq<Entry>, b: seq<Entry>)
    ensures LogOf(a + b) == LogOf(a) + LogOf(b)
  {
    hide Encoded;
    if a == [] {
      assert a + b == b;
    } else {
      LogConcat(a[1..], b);
      assert (a + b)[1..] == a[1..] + b;
    }
  }

  lemma OneLog(e: Entry)
    ensures LogOf([e]) == Encoded(e.flow, e.fields)
  {
    hide Encoded;
    assert [e][1..] == [];
  }

  /** The log of a running collector: its file and its queue. */
  class Log {
    const file: LogFile
    const queue: OutputQueue
    var exited: bool
    ghost var accepted: seq<Entry>  // all records taken, in order
    ghost var flushed: nat  // how many of them were flushed
    ghost var corrupt: bool
    ghost const base: seq<u8>  // what the file held before

    /** File and queue together hold all accepted records in order, and the file holds
        whole records only, unless a flush ended in the corrupting error. */
    ghost predicate Valid()
      reads this, file, queue, queue.queue
    {
      && queue.Valid() && flushed <= |accepted| && (corrupt ==> exited)
      && (!corrupt ==> file.bytes == base + LogOf(accepted[..flushed]))
      && (!exited ==> file.AtEnd() && queue.Contents() == LogOf(accepted[flushed..]))
      && (corrupt ==> base + LogOf(accepted[..flushed]) <= file.bytes <= base + LogOf(accepted))
    }

    constructor (file: LogFile)
      requires file.AtEnd()
      ensures Valid() && this.file == file && !exited && accepted == [] && base == file.bytes && fresh(queue)
    {
      this.file, base, exited := file, file.bytes, false;
      accepted, flushed, corrupt := [], 0, false;
      queue := new OutputQueue();
      new;
      assert accepted[..0] == [] && accepted[0..] == [];
    }

    /** output_flow_flush. */
    method Flush(replies: seq<WriteReply>, calls: Calls)
      requires Valid() && !exited
      modifies this`exited, this`flushed, this`corrupt, queue`offset, file
      ensures Valid() && accepted == old(accepted) && queue.queue == old(queue.queue)
      ensures !exited ==> flushed == |accepted| && queue.offset == 0
      ensures corrupt ==> exited
      ensures Healthy(replies) && (file.isPipe || calls.tellOk) ==> !exited
    {
      hide LogOf, Encoded;
      ghost var before, waiting := accepted[..flushed], accepted[flushed..];
      LogConcat(before, waiting);
      NothingWaits(accepted);
      assert before + waiting == accepted;
      assert accepted[..|accepted|] == accepted && accepted[|accepted|..] == [];
      var r := queue.Flush(file, replies, calls);
      if r.Ok? {
        flushed := |accepted|;
        assert base + LogOf(before) + LogOf(waiting) == base + LogOf(accepted);
      } else {
        exited := true;
        corrupt := r == Err(Corrupt);
        assert base + LogOf(before) + LogOf(waiting) == base + LogOf(accepted);
      }
    }

    /** The end of process_flow: a record goes to the queue, after a flush if it has no
        room there. The second attempt cannot fail. */
    method Accept(record: seq<u8>, ghost e: Entry, mallocOk: bool, reallocOk: nat -> bool, replies: seq<WriteReply>, calls: Calls)
      requires Valid() && !exited && record == Encoded(e.flow, e.fields)
      modifies this`exited, this`flushed, this`corrupt, this`accepted, queue, queue.queue, file
      ensures Valid() && (queue.queue == old(queue.queue) || fresh(queue.queue))
      ensures accepted == if exited then old(accepted) else old(accepted) + [e]
      ensures mallocOk && Healthy(replies) && (file.isPipe || calls.tellOk) ==> !exited
    {
      hide Encoded, LogOf;
      RecordSize(e);
      ghost var taken := accepted;
      var r := queue.Enqueue(record, mallocOk, reallocOk);
      if r.Exited? {
        exited := true;
        return;
      }
      if r.Full? {
        Flush(replies, calls);
        if exited {
          return;
        }
        r := queue.EnqueueAfterFlush(record, reallocOk);
        NothingWaits(taken);
      }
      accepted := taken + [e];
      OneMore(taken, flushed, e);
    }

    lemma NothingWaits(es: seq<Entry>)
      ensures LogOf(es[|es|..]) == []
    {
    }
  }

  lemma RecordSize(e: Entry)
    ensures |Encoded(e.flow, e.fields)| <= 512
  {
    EncodedLength(e.flow, e.fields);
    FitsBuffer(e.fields);
  }

  lemma OneMore(es: seq<Entry>, n: nat, e: Entry)
    requires n <= |es|
    ensures (es + [e])[..n] == es[..n]
    ensures LogOf((es + [e])[n..]) == LogOf(es[n..]) + Encoded(e.flow, e.fields)
  {
    hide Encoded, LogOf;
    LogConcat(es[n..], [e]);
    OneLog(e);
    assert (es + [e])[n..] == es[n..] + [e];
  }

  // ----- What a reader finds -----

  /** How many whole records the first n bytes of a log hold. */
  function Whole(es: seq<Entry>, n: nat): (k: nat)
    ensures k <= |es|
  {
    if es == [] || n < |Encoded(es[0].flow, es[0].fields)| then 0
    else 1 + Whole(es[1..], n - |Encoded(es[0].flow, es[0].fields)|)
  }

  /** The first n bytes of a log read back as the whole records that they hold. */
  lemma {:induction false} LogPrefix(es: seq<Entry>, n: nat)
    requires n <= |LogOf(es)|
    ensures ReadLog(LogOf(es)[..n]) == (RestoredAll(es[..Whole(es, n)]), Err(Eof))
  {
    hide Encoded, Restored, GetFlow;
    if es == [] {
      assert es[..0] == es && LogOf(es)[..n] == LogOf(es);
      LogReadsBack(es);
    } else {
      var first, rest := Encoded(es[0].flow, es[0].fields), LogOf(es[1..]);
      if n < |first| {
        assert LogOf(es)[..n] == LogOf([]) + first[..n];
        CutLogReadsBack([], es[0], n);
        assert es[..0] == [];
      } else {
        var part := rest[..n - |first|];
        assert LogOf(es)[..n] == first + part;
        FirstEntry(es[0], part);
        assert (first + part)[|first|..] == part;
        LogPrefix(es[1..], n - |first|);
        Shifted(es, Whole(es[1..], n - |first|));
      }
    }
  }

  lemma {:induction false} WholeIs(es: seq<Entry>, n: nat, j: nat)
    requires j <= |es|
    ensures j <= Whole(es, n) <==> |LogOf(es[..j])| <= n
  {
    hide Encoded;
    if j == 0 {
      assert es[..0] == [];
    } else {
      var first := Encoded(es[0].flow, es[0].fields);
      Shifted(es, j - 1);
      if n >= |first| { WholeIs(es[1..], n - |first|, j - 1); }
    }
  }

  lemma Shifted(es: seq<Entry>, k: nat)
    requires k < |es|
    ensures es[..k + 1] == [es[0]] + es[1..][..k]
    ensures LogOf(es[..k + 1]) == Encoded(es[0].flow, es[0].fields) + LogOf(es[1..][..k])
    ensures RestoredAll(es[..k + 1]) == [Restored(es[0].flow, es[0].fields)] + RestoredAll(es[1..][..k])
  {
    hide Encoded, Restored;
    assert es[..k + 1][1..] == es[1..][..k];
  }

  /** Whatever happened to a log that began empty, reading its file gives the flushed
      records in order, then, only after a corrupting error, some more of the accepted
      ones, and then the end of the file. */
  lemma LogIsReadable(log: Log)
    requires log.Valid() && log.base == []
    ensures var k := Whole(log.accepted, |log.file.bytes|);
      && log.flushed <= k && (!log.corrupt ==> k == log.flushed)
      && ReadLog(log.file.bytes) == (RestoredAll(log.accepted[..k]), Err(Eof))
  {
    hide LogOf, Encoded, ReadLog, RestoredAll, Whole;
    var es, n, j := log.accepted, |log.file.bytes|, log.flushed;
    var k := Whole(es, n);
    LogConcat(es[..j], es[j..]);
    assert es[..j] + es[j..] == es;
    assert log.base + LogOf(es) == LogOf(es) && log.base + LogOf(es[..j]) == LogOf(es[..j]);
    assert log.file.bytes == LogOf(es)[..n];
    LogPrefix(es, n);
    WholeIs(es, n, j);
    WholeIs(es, n, k);
    if !log.corrupt && k > j { Longer(es, j, k); }
  }

  lemma {:induction false} Longer(es: seq<Entry>, j: nat, k: nat)
    requires j < k <= |es|
    ensures |LogOf(es[..j])| < |LogOf(es[..k])|
  {
    hide LogOf;
    LogConcat(es[..j], es[j..k]);
    assert es[..j] + es[j..k] == es[..k];
    SomeBytes(es[j..k]);
  }

  lemma SomeBytes(es: seq<Entry>)
    requires es != []
    ensures |LogOf(es)| > 0
  {
    EncodedLength(es[0].flow, es[0].fields);
    FitsBuffer(es[0].fields);
  }
}
