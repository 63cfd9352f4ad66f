// src/recovery/log_manager.cpp over its two byte buffers, and the log file of
// include/storage/LogStorage.h. Each method is one critical section or one step
// of the flush thread and makes the step of LogModel it is named after.
module LogManagers {
  import opened Bytes
  import opened LogRecords
  import opened LogModel
  import opened Sequences

  /** data is size bytes of a file from offset on, padded with zeros behind its end. */
  ghost predicate ReadsFrom(data: Str, contents: Str, offset: nat, size: nat) {
    && |data| == size
    && forall i :: 0 <= i < size ==> data[i] == if offset + i < |contents| then contents[offset + i] else 0
  }

  /** A log file: ReadLog pads with zeros, WriteLog appends. */
  class LogStorage {
    var contents: Str

    constructor (contents: Str)
      ensures this.contents == contents
    {
      this.contents := contents;
    }

    /** False at and past the end of the file. */
    method ReadLog(size: nat, offset: nat) returns (ok: bool, data: Str)
      ensures ok <==> offset < |contents|
      ensures ok ==> ReadsFrom(data, contents, offset, size)
    {
      if offset >= |contents| {
        return false, [];
      }
      var count := if |contents| - offset < size then |contents| - offset else size;
      data := contents[offset..offset + count] + seq(size - count, i => 0);
      return true, data;
    }

    method WriteLog(data: Str)
      modifies this
      ensures contents == old(contents) + data
    {
      if |data| == 0 {
        return;
      }
      contents := contents + data;
    }
  }

  /** memcpy of s into a. */
  method CopyInto(a: array<byte>, at: nat, s: Str)
    requires at + |s| <= a.Length
    modifies a
    ensures a[..at + |s|] == old(a[..at]) + s
  {
    var i := 0;
    while i < |s|
      invariant i <= |s|
      invariant a[..at] == old(a[..at])
      invariant a[at..at + i] == s[..i]
    {
      a[at + i] := s[i];
      i := i + 1;
    }
    assert a[..at + |s|] == a[..at] + a[at..at + |s|];
  }

  /** The key and value of an INSERT or DELETE record, each after its length. */
  method CopyRow(a: array<byte>, at: nat, key: Str, value: Str) returns (pos: nat)
    requires at + |Row(key, value)| <= a.Length
    modifies a
    ensures pos == at + |Row(key, value)|
    ensures a[..pos] == old(a[..at]) + Row(key, value)
  {
    pos := at;
    CopyInto(a, pos, U32(|key|));
    pos := pos + 4;
    CopyInto(a, pos, key);
    pos := pos + |key|;
    CopyInto(a, pos, U32(|value|));
    pos := pos + 4;
    CopyInto(a, pos, value);
    pos := pos + |value|;
    AssocFive(old(a[..at]), U32(|key|), key, U32(|value|), value);
  }

  class LogManager {
    var logBuffer: array<byte>
    var flushBuffer: array<byte>
    var logOffset: nat
    var flushOffset: nat
    var nextLsn: int
    var flushLsn: int
    var persistentLsn: int
    var needFlush: bool
    /** Where the flush thread stands between its critical sections. */
    var phase: Phase
    const storage: LogStorage

    ghost predicate Valid()
      reads this
    {
      && logBuffer.Length == LOG_BUFFER_SIZE && flushBuffer.Length == LOG_BUFFER_SIZE
      && logBuffer != flushBuffer
      && logOffset <= LOG_BUFFER_SIZE && flushOffset <= LOG_BUFFER_SIZE
    }

    ghost function View(): LogState
      requires Valid()
      reads this, storage, logBuffer, flushBuffer
    {
      LogState(storage.contents, flushBuffer[..flushOffset], logBuffer[..logOffset],
               nextLsn, flushLsn, persistentLsn, needFlush, phase)
    }

    constructor (storage: LogStorage)
      ensures Valid() && fresh(logBuffer) && fresh(flushBuffer) && this.storage == storage
      ensures View() == Initial(storage.contents, 0)
    {
      this.storage := storage;
      logBuffer := new byte[LOG_BUFFER_SIZE];
      flushBuffer := new byte[LOG_BUFFER_SIZE];
      logOffset, flushOffset := 0, 0;
      nextLsn, flushLsn, persistentLsn := 0, INVALID_LSN, INVALID_LSN;
      needFlush, phase := false, Idle;
    }

    /** AppendLogRecord once its wait is over; lsn is the record's new LSN. */
    method AppendLogRecord(r: LogRecord) returns (lsn: int)
      requires Valid() && CanAppend(View(), r)
      modifies this`logOffset, this`nextLsn, logBuffer
      ensures Valid() && View() == Next(old(View()), Append(r))
      ensures lsn == old(nextLsn) && logBuffer == old(logBuffer) && flushBuffer == old(flushBuffer)
    {
      var stamped := r.(lsn := nextLsn);
      lsn := nextLsn;
      nextLsn := nextLsn + 1;
      CopyInto(logBuffer, logOffset, Header(stamped));
      var pos := logOffset + HEADER_SIZE;
      if HasRow(stamped.kind) {
        pos := CopyRow(logBuffer, pos, stamped.key, stamped.value);
        Assoc(old(logBuffer[..logOffset]), Header(stamped), Row(stamped.key, stamped.value));
      }
      logOffset := pos;
    }

    /** A waiting append, or Flush(lsn, true), asks the flush thread to start. */
    method RequestFlush()
      requires Valid()
      modifies this`needFlush
      ensures Valid() && View() == Next(old(View()), Request) && needFlush
    {
      needFlush := true;
    }

    /** The flush thread's critical section: SwapBuffer, then the last LSN handed out. */
    method SwapBuffer()
      requires Valid() && Enabled(View(), Swap)
      modifies this
      ensures Valid() && View() == Next(old(View()), Swap)
      ensures flushBuffer[..flushOffset] == old(logBuffer[..logOffset]) && logOffset == 0
      ensures flushLsn == old(nextLsn) - 1 && nextLsn == old(nextLsn)
      ensures persistentLsn == old(persistentLsn) && needFlush == old(needFlush)
    {
      logBuffer, flushBuffer := flushBuffer, logBuffer;
      flushOffset := logOffset;
      logOffset := 0;
      flushLsn := nextLsn - 1;
      phase := Swapped;
    }

    method WriteFlushBuffer()
      requires Valid() && Enabled(View(), Write)
      modifies this`phase, storage
      ensures Valid() && View() == Next(old(View()), Write)
      ensures storage.contents == old(storage.contents) + flushBuffer[..flushOffset]
    {
      storage.WriteLog(flushBuffer[..flushOffset]);
      phase := Written;
    }

    method PublishLsn()
      requires Valid() && Enabled(View(), Publish)
      modifies this
      ensures Valid() && View() == Next(old(View()), Publish)
      ensures persistentLsn == old(flushLsn) && !needFlush
    {
      persistentLsn := flushLsn;
      needFlush := false;
      phase := Idle;
    }

    method SetNextLsn(lsn: int)
      requires Valid()
      modifies this`nextLsn
      ensures Valid() && View() == old(View()).(nextLsn := lsn)
    {
      nextLsn := lsn;
    }
  }
}
