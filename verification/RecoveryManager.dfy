// src/recovery/recovery_manager.cpp: the chunked redo scan and the undo loop.
module RecoveryManagers {
  import opened Options
  import opened Bytes
  import opened LogRecords
  import opened LogModel
  import opened LogManagers
  import opened RecoveryModel
  import opened RecoveryCorrect
  import opened RecoveryAgain
  import opened Compensations
  import opened RecoveredStores
  import opened Sequences
  import S = StoreModel

  /** Complete records of supported types, none larger than the scan's buffer. */
  ghost predicate Scannable(records: seq<LogRecord>) {
    AllFit(records) && forall k :: 0 <= k < |records| ==> Supported(records[k].kind) && Size(records[k]) <= LOG_BUFFER_SIZE
  }

  /** The source counts file offsets and LSNs in 32-bit ints. */
  ghost predicate FitsInts(records: seq<LogRecord>)
    requires AllFit(records)
  {
    |EncodeAll(records)| < TWO_31 && MaxLsn(records) + 1 < TWO_31
  }

  // ---- one probe of the scan ----

  lemma {:induction false} ReadPastEnd(data: Str, contents: Str, offset: nat, size: nat, i: nat)
    requires ReadsFrom(data, contents, offset, size) && i + 4 <= size && offset + i >= |contents|
    ensures SizeField(data[i..]) == 0
  {
    assert data[i..][..4] == [0, 0, 0, 0];
    FourZeros();
  }

  lemma {:induction false} FourZeros()
    ensures FromLE([0, 0, 0, 0]) == 0
  {
  }

  /** Where record k lies in the file. */
  lemma {:induction false} RecordInFile(records: seq<LogRecord>, k: nat)
    requires AllFit(records) && k < |records|
    ensures LogLength(records[..k + 1]) == LogLength(records[..k]) + Size(records[k]) <= |EncodeAll(records)|
    ensures FitsFields(records[k])
    ensures EncodeAll(records)[LogLength(records[..k])..LogLength(records[..k]) + Size(records[k])] == Encode(records[k])
  {
    CutOnce(records, k);
    EncodeAllHead(records[k..]);
    LengthIsEncoded(records[..k]);
    assert records[..k + 1][..k] == records[..k];
    Middle(EncodeAll(records[..k]), Encode(records[k]), EncodeAll(records[k..][1..]));
    Assoc(EncodeAll(records[..k]), Encode(records[k]), EncodeAll(records[k..][1..]));
  }

  lemma {:induction false} DecodeAt(data: Str, i: nat, r: LogRecord)
    requires FitsFields(r) && i + Size(r) <= |data| && data[i..i + Size(r)] == Encode(r)
    ensures SizeField(data[i..]) == Size(r)
    ensures Decode(data[i..]) == Some(r) <==> Supported(r.kind)
  {
    assert data[i..] == Encode(r) + data[i + Size(r)..];
    RecordRoundTrip(r, data[i + Size(r)..]);
  }

  /** With at least four of its bytes in the buffer, a record's size can be probed. */
  lemma {:induction false} SizeAt(data: Str, i: nat, s: Str, r: LogRecord)
    requires FitsFields(r) && i + 4 <= |data| && |s| >= 4 && data[i..i + 4] == s[..4] && s == Encode(r)
    ensures SizeField(data[i..]) == Size(r)
  {
    RecordRoundTrip(r, []);
    assert s + [] == s;
    assert data[i..][..4] == data[i..i + 4];
  }

  /** As much of record k as the buffer holds. */
  lemma {:induction false} RecordBytes(records: seq<LogRecord>, data: Str, offset: nat, i: nat, k: nat, j: nat)
    requires AllFit(records) && k < |records| && j <= Size(records[k]) && i + j <= LOG_BUFFER_SIZE
    requires ReadsFrom(data, EncodeAll(records), offset, LOG_BUFFER_SIZE)
    requires offset + i == LogLength(records[..k])
    ensures data[i..i + j] == Encode(records[k])[..j]
  {
    RecordInFile(records, k);
    PartOfSlice(data, EncodeAll(records), offset, LOG_BUFFER_SIZE, i, Encode(records[k]), j);
  }

  lemma {:induction false} PartOfSlice(data: Str, contents: Str, offset: nat, size: nat, i: nat, piece: Str, j: nat)
    requires ReadsFrom(data, contents, offset, size) && j <= |piece| && i + j <= size
    requires offset + i + |piece| <= |contents| && contents[offset + i..offset + i + |piece|] == piece
    ensures data[i..i + j] == piece[..j]
  {
  }

  lemma {:induction false} ProbeRecord(records: seq<LogRecord>, data: Str, offset: nat, i: nat, k: nat)
    requires AllFit(records) && k < |records|
    requires ReadsFrom(data, EncodeAll(records), offset, LOG_BUFFER_SIZE)
    requires offset + i == LogLength(records[..k]) && i + 4 <= LOG_BUFFER_SIZE
    ensures SizeField(data[i..]) == Size(records[k])
    ensures i + Size(records[k]) <= LOG_BUFFER_SIZE ==> (Decode(data[i..]) == Some(records[k]) <==> Supported(records[k].kind))
  {
    var r := records[k];
    RecordBytes(records, data, offset, i, k, 4);
    SizeAt(data, i, Encode(r), r);
    if i + Size(r) <= LOG_BUFFER_SIZE {
      RecordBytes(records, data, offset, i, k, Size(r));
      assert Encode(r)[..Size(r)] == Encode(r);
      DecodeAt(data, i, r);
    }
  }

  /** What the scan finds at position i of a buffer read at offset: the end, a record to redo,
      or a record that continues past the buffer. */
  lemma {:induction false} Probe(records: seq<LogRecord>, data: Str, offset: nat, i: nat, k: nat)
    requires Scannable(records) && k <= |records|
    requires ReadsFrom(data, EncodeAll(records), offset, LOG_BUFFER_SIZE)
    requires offset + i == LogLength(records[..k]) && i + 4 <= LOG_BUFFER_SIZE
    ensures SizeField(data[i..]) == if k == |records| then 0 else Size(records[k])
    ensures SizeField(data[i..]) < TWO_31
    ensures k < |records| && i + Size(records[k]) <= LOG_BUFFER_SIZE ==> Decode(data[i..]) == Some(records[k])
  {
    if k == |records| {
      assert records[..k] == records;
      LengthIsEncoded(records);
      ReadPastEnd(data, EncodeAll(records), offset, LOG_BUFFER_SIZE, i);
    } else {
      ProbeRecord(records, data, offset, i, k);
      assert FitsFields(records[k]);
    }
  }

  lemma {:induction false} NoWrap(size: nat, i: nat)
    requires size < TWO_31 && i <= LOG_BUFFER_SIZE
    ensures (size + i) % TWO_32 == size + i
  {
  }

  /** Reading a record back at its offset, from a file that may have grown since. */
  lemma {:induction false} ReadBack(records: seq<LogRecord>, k: nat, contents: Str, data: Str)
    requires Scannable(records) && k < |records| && EncodeAll(records) <= contents
    requires ReadsFrom(data, contents, LogLength(records[..k]), Size(records[k]))
    ensures Decode(data) == Some(records[k])
  {
    assert AllFit(records) && Supported(records[k].kind);
    hide Scannable, AllFit, FitsFields, EncodeAll, LogLength, Encode, Decode, ReadsFrom, Supported, Size;
    RecordInFile(records, k);
    SliceOfPrefix(EncodeAll(records), contents, LogLength(records[..k]), Size(records[k]));
    DecodeWhole(records[k]);
    WholeSlice(data, contents, LogLength(records[..k]), Encode(records[k]));
  }

  lemma {:induction false} DecodeWhole(r: LogRecord)
    requires FitsFields(r) && Supported(r.kind)
    ensures Decode(Encode(r)) == Some(r) && |Encode(r)| == Size(r)
  {
    RecordRoundTrip(r, []);
    assert Encode(r) + [] == Encode(r);
  }

  lemma {:induction false} WholeSlice(data: Str, contents: Str, offset: nat, piece: Str)
    requires ReadsFrom(data, contents, offset, |piece|)
    requires offset + |piece| <= |contents| && contents[offset..offset + |piece|] == piece
    ensures data == piece
  {
    PartOfSlice(data, contents, offset, |piece|, 0, piece, |piece|);
    assert data[0..|piece|] == data && piece[..|piece|] == piece;
  }

  lemma {:induction false} RecordPresent(records: seq<LogRecord>, k: nat, contents: Str)
    requires AllFit(records) && k < |records| && EncodeAll(records) <= contents
    ensures LogLength(records[..k]) < |contents|
  {
    RecordInFile(records, k);
  }

  /** What the scan has built and where it stands. */
  datatype RedoState = RedoState(
    kv: S.Store, active: map<nat, int>, mapping: map<int, (nat, nat)>, maxLsn: int, position: nat)

  function RedoneOne(s: RedoState, r: LogRecord): RedoState {
    RedoState(S.ApplyAll(s.kv, RedoOp(r)), Track(s.active, r), s.mapping[r.lsn := (s.position, Size(r))],
              if s.maxLsn >= r.lsn then s.maxLsn else r.lsn, s.position + Size(r))
  }

  function RedoneTo(start: S.Store, records: seq<LogRecord>, k: nat): RedoState
    requires k <= |records|
  {
    if k == 0 then RedoState(start, map[], map[], INVALID_LSN, 0)
    else RedoneOne(RedoneTo(start, records, k - 1), records[k - 1])
  }

  /** What a whole log comes to. */
  function Redoing(start: S.Store, log: seq<LogRecord>): RedoState {
    RedoState(S.ApplyAll(start, RedoOps(log)), Active(log), Mapping(log), MaxLsn(log), LogLength(log))
  }

  lemma {:induction false} RedoingSnoc(start: S.Store, log: seq<LogRecord>, r: LogRecord)
    ensures Redoing(start, log + [r]) == RedoneOne(Redoing(start, log), r)
  {
    assert (log + [r])[..|log|] == log;
    S.CallsAppend(start, RedoOps(log), RedoOp(r));
  }

  lemma {:induction false} RedoneToIs(start: S.Store, records: seq<LogRecord>, k: nat)
    requires k <= |records|
    ensures RedoneTo(start, records, k) == Redoing(start, records[..k])
    decreases k, 1
  {
    if k == 0 {
      assert records[..k] == [];
    } else {
      RedoneOneMore(start, records, k);
    }
  }

  lemma {:induction false} RedoneOneMore(start: S.Store, records: seq<LogRecord>, k: nat)
    requires 0 < k <= |records|
    ensures RedoneTo(start, records, k) == Redoing(start, records[..k])
    decreases k, 0
  {
    hide Redoing, RedoneOne;
    RedoneToIs(start, records, k - 1);
    assert records[..k] == records[..k - 1] + [records[k - 1]];
    RedoingSnoc(start, records[..k - 1], records[k - 1]);
  }

  /** The scan is at the end of the file exactly when all records are done. */
  lemma {:induction false} AtEndOfFile(start: S.Store, records: seq<LogRecord>, k: nat)
    requires AllFit(records) && k <= |records|
    ensures RedoneTo(start, records, k).position < |EncodeAll(records)| <==> k < |records|
  {
    RedoneToIs(start, records, k);
    if k < |records| {
      RecordInFile(records, k);
    } else {
      assert records[..k] == records;
      LengthIsEncoded(records);
    }
  }

  class RecoveryManager {
    const storage: LogStorage
    /** kv_, seen as the value of its memtable and tables, and what it was at first. */
    var kv: S.Store
    ghost const start: S.Store
    var active: map<nat, int>
    var mapping: map<int, (nat, nat)>
    /** The log manager, as the records appended to it since recovery began and its next LSN. */
    var appended: seq<LogRecord>
    var nextLsn: int

    constructor (storage: LogStorage, kv: S.Store)
      ensures this.storage == storage
      ensures this.kv == start == kv && active == map[] && mapping == map[] && appended == [] && nextLsn == 0
    {
      this.storage := storage;
      this.kv, start := kv, kv;
      active, mapping, appended, nextLsn := map[], map[], [], 0;
    }

    /** The redo pass has done the first k records, up to this position in the file. */
    ghost predicate Redone(records: seq<LogRecord>, k: nat, maxLsn: int, position: nat)
      requires k <= |records|
      reads this
    {
      RedoState(kv, active, mapping, maxLsn, position) == RedoneTo(start, records, k)
    }

    method RedoLog(r: LogRecord)
      modifies this`kv, this`active
      ensures kv == S.ApplyAll(old(kv), RedoOp(r)) && active == Track(old(active), r)
    {
      active := active[r.txn := r.lsn];
      match r.kind {
        case Commit => active := active - {r.txn};
        case Abort => active := active - {r.txn};
        case Begin => active := active[r.txn := r.lsn];
        case Insert =>
          kv := S.Put(kv, r.key, r.value);
          S.OneCall(old(kv), S.PutOp(r.key, r.value));
        case Delete =>
          kv := S.Del(kv, r.key);
          S.OneCall(old(kv), S.DelOp(r.key));
        case _ =>
      }
    }

    /** One record of the scan: the largest LSN, the mapping and the redo. */
    method RedoRecord(r: LogRecord, position: nat, size: nat, maxLsn: int, ghost records: seq<LogRecord>, ghost k: nat)
      returns (newMax: int)
      requires k < |records| && records[k] == r && size == Size(r)
      requires Redone(records, k, maxLsn, position)
      modifies this`kv, this`active, this`mapping
      ensures Redone(records, k + 1, newMax, position + size)
    {
      newMax := if maxLsn >= r.lsn then maxLsn else r.lsn;
      mapping := mapping[r.lsn := (position, size)];
      RedoLog(r);
    }

    /** One turn of the inner loop, at position inner of the buffer. */
    method ScanOne(buffer: Str, offset: nat, inner: nat, maxLsn: int, ghost records: seq<LogRecord>, ghost k: nat)
      returns (more: bool, next: nat, newMax: int, ghost k': nat)
      requires Scannable(records) && k <= |records| && inner + 4 <= LOG_BUFFER_SIZE
      requires ReadsFrom(buffer, EncodeAll(records), offset, LOG_BUFFER_SIZE)
      requires Redone(records, k, maxLsn, offset + inner)
      modifies this`kv, this`active, this`mapping
      ensures more <==> k < |records| && inner + Size(records[k]) <= LOG_BUFFER_SIZE
      ensures k < |records| && inner == 0 ==> more
      ensures if more then next > inner && k' == k + 1 else next == inner && k' == k
      ensures Redone(records, k', newMax, offset + next)
    {
      RedoneToIs(start, records, k);
      Probe(records, buffer, offset, inner, k);
      var size := SizeField(buffer[inner..]);
      NoWrap(size, inner);
      if size == 0 || (size + inner) % TWO_32 > LOG_BUFFER_SIZE {
        return false, inner, maxLsn, k;
      }
      var log := DeserializeFrom(buffer[inner..]);
      newMax := RedoRecord(log.value, offset + inner, size, maxLsn, records, k);
      more, next, k' := true, inner + size, k + 1;
    }

    /** The inner loop: the records that lie whole in one buffer. */
    method ScanBuffer(buffer: Str, offset: nat, maxLsn: int, ghost records: seq<LogRecord>, ghost k0: nat)
      returns (inner: nat, newMax: int, ghost k: nat)
      requires Scannable(records) && k0 <= |records|
      requires ReadsFrom(buffer, EncodeAll(records), offset, LOG_BUFFER_SIZE)
      requires Redone(records, k0, maxLsn, offset)
      modifies this`kv, this`active, this`mapping
      ensures k0 <= k <= |records| && (k0 < |records| ==> k0 < k)
      ensures Redone(records, k, newMax, offset + inner)
    {
      inner, newMax, k := 0, maxLsn, k0;
      while inner + 4 <= LOG_BUFFER_SIZE
        invariant k0 <= k <= |records| && (inner == 0 ==> k == k0) && (inner > 0 ==> k0 < k)
        invariant Redone(records, k, newMax, offset + inner)
        decreases |records| - k
      {
        var more;
        more, inner, newMax, k := ScanOne(buffer, offset, inner, newMax, records, k);
        if !more {
          break;
        }
      }
    }

    /** Redo, over a log file of complete records. */
    method Redo(ghost records: seq<LogRecord>)
      requires Scannable(records) && FitsInts(records) && storage.contents == EncodeAll(records)
      requires kv == start && active == map[] && mapping == map[]
      modifies this`kv, this`active, this`mapping, this`nextLsn
      ensures kv == S.ApplyAll(start, RedoOps(records)) && active == Active(records) && mapping == Mapping(records)
      ensures nextLsn == MaxLsn(records) + 1
    {
      var offset: nat := 0;
      var maxLsn := INVALID_LSN;
      ghost var k: nat := 0;
      AtEndOfFile(start, records, k);
      var ok, buffer := storage.ReadLog(LOG_BUFFER_SIZE, offset);
      while ok
        invariant k <= |records| && Redone(records, k, maxLsn, offset)
        invariant ok <==> k < |records|
        invariant ok ==> ReadsFrom(buffer, storage.contents, offset, LOG_BUFFER_SIZE)
        decreases |records| - k
      {
        var inner;
        inner, maxLsn, k := ScanBuffer(buffer, offset, maxLsn, records, k);
        offset := offset + inner;
        AtEndOfFile(start, records, k);
        ok, buffer := storage.ReadLog(LOG_BUFFER_SIZE, offset);
      }
      RedoneToIs(start, records, |records|);
      assert records[..|records|] == records;
      nextLsn := maxLsn + 1;
    }

    ghost function Undoing(): UndoState
      reads this
    {
      UndoState(active, appended, nextLsn)
    }

    method UndoLog(r: LogRecord)
      modifies this`kv, this`active, this`appended, this`nextLsn
      ensures Undoing() == UndoOne(old(Undoing()), r) && kv == S.ApplyAll(old(kv), UndoOp(r))
    {
      match r.kind {
        case Insert =>
          kv := S.Del(kv, r.key);
          S.OneCall(old(kv), S.DelOp(r.key));
          AppendCompensation(r, Delete);
        case Delete =>
          kv := S.Put(kv, r.key, r.key);
          S.OneCall(old(kv), S.PutOp(r.key, r.key));
          AppendCompensation(r, Insert);
        case _ =>
      }
    }

    method AppendCompensation(r: LogRecord, kind: LogType)
      modifies this`active, this`appended, this`nextLsn
      ensures Undoing() ==
                UndoState(old(active)[r.txn := old(nextLsn)],
                          old(appended) + [LogRecord(old(nextLsn), r.txn, if r.txn in old(active) then old(active)[r.txn] else 0,
                                                     kind, r.key, r.value)],
                          old(nextLsn) + 1)
    {
      var prev := if r.txn in active then active[r.txn] else 0;
      var log := LogRecord(nextLsn, r.txn, prev, kind, r.key, r.value);
      appended, nextLsn := appended + [log], nextLsn + 1;
      active := active[r.txn := log.lsn];
    }

    /** The record with the given LSN, read back from the file through lsn_mapping_. */
    method Fetch(lsn: int, ghost records: seq<LogRecord>, ghost k: nat) returns (r: LogRecord)
      requires Scannable(records) && Increasing(records) && k < |records| && records[k].lsn == lsn
      requires EncodeAll(records) <= storage.contents && mapping == Mapping(records)
      ensures r == records[k]
    {
      MappingFindsAll(records, k);
      var (offset, size) := mapping[lsn];
      RecordPresent(records, k, storage.contents);
      var ok, data := storage.ReadLog(size, offset);
      ReadBack(records, k, storage.contents, data);
      var log := DeserializeFrom(data);
      r := log.value;
    }

    /** One turn of the undo loop: the undo list moves from below position n to below position m,
        past the last unfinished record in between. */
    method UndoNext(lsns: set<int>, ghost records: seq<LogRecord>, ghost n: nat)
      returns (rest: set<int>, lsn: int, ghost m: nat)
      requires Scannable(records) && WellFormed(records) && n <= |records|
      requires EncodeAll(records) <= storage.contents && mapping == Mapping(records)
      requires lsns == Frontier(records, n) && lsns != {}
      modifies this`kv, this`active, this`appended, this`nextLsn
      ensures m < n && rest == Frontier(records, m)
      ensures UndoDown(records, n, old(Undoing())) == UndoDown(records, m, Undoing())
      ensures S.ApplyAll(old(kv), UndoOps(records, n)) == S.ApplyAll(kv, UndoOps(records, m))
      ensures LoserLsns(records, n) == [lsn] + LoserLsns(records, m)
    {
      ghost var top := SkipFinished(records, n, Undoing());
      m := top - 1;
      FrontierTop(records, m);
      lsn :| lsn in lsns && forall x :: x in lsns ==> x <= lsn;
      var log := Fetch(lsn, records, m);
      FrontierSteps(records, m);
      UndoLog(log);
      S.CallsAppend(old(kv), UndoOp(log), UndoOps(records, m));
      rest := lsns - {lsn};
      if log.prevLsn != INVALID_LSN {
        rest := rest + {log.prevLsn};
      }
    }

    /** The records of unfinished transactions, found through the undo list and the prev-LSN chains. */
    method UndoChains(ghost records: seq<LogRecord>) returns (ghost visited: seq<int>)
      requires Scannable(records) && WellFormed(records)
      requires EncodeAll(records) <= storage.contents
      requires active == Active(records) && mapping == Mapping(records)
      modifies this`kv, this`active, this`appended, this`nextLsn
      ensures Undoing() == UndoDown(records, |records|, old(Undoing()))
      ensures kv == S.ApplyAll(old(kv), UndoOps(records, |records|))
      ensures visited == LoserLsns(records, |records|)
    {
      var lsns := active.Values;
      ghost var n: nat := |records|;
      visited := [];
      FrontierStarts(records);
      while lsns != {}
        invariant n <= |records| && lsns == Frontier(records, n)
        invariant UndoDown(records, n, Undoing()) == UndoDown(records, |records|, old(Undoing()))
        invariant S.ApplyAll(kv, UndoOps(records, n)) == S.ApplyAll(old(kv), UndoOps(records, |records|))
        invariant visited + LoserLsns(records, n) == LoserLsns(records, |records|)
        decreases n
      {
        var lsn;
        ghost var below;
        lsns, lsn, below := UndoNext(lsns, records, n);
        Assoc(visited, [lsn], LoserLsns(records, below));
        visited, n := visited + [lsn], below;
      }
      NothingLeft(records, n, Undoing());
    }

    /** The ABORT records at the end of Undo. */
    method AppendAborts() returns (ghost order: seq<nat>)
      modifies this`appended, this`nextLsn
      ensures Enumerates(order, active) && nextLsn == old(nextLsn) + |order|
      ensures appended == old(appended) + AbortRecords(order, active, old(nextLsn))
    {
      order := [];
      var left := active.Keys;
      while left != {}
        invariant left <= active.Keys && nextLsn == old(nextLsn) + |order|
        invariant forall t :: t in order <==> t in active && t !in left
        invariant forall i, j :: 0 <= i < j < |order| ==> order[i] != order[j]
        invariant appended == old(appended) + AbortRecords(order, active, old(nextLsn))
        decreases |left|
      {
        var t :| t in left;
        AbortRecordsGrow(old(appended), order, t, active, old(nextLsn));
        appended := appended + [LogRecord(nextLsn, t, active[t], Abort, [], [])];
        nextLsn := nextLsn + 1;
        order := order + [t];
        left := left - {t};
      }
    }

    /** Undo, after Redo over the same log. */
    method Undo(ghost records: seq<LogRecord>) returns (ghost visited: seq<int>, ghost order: seq<nat>)
      requires Scannable(records) && WellFormed(records)
      requires EncodeAll(records) <= storage.contents
      requires active == Active(records) && mapping == Mapping(records)
      modifies this`kv, this`active, this`appended, this`nextLsn
      ensures visited == LoserLsns(records, |records|)
      ensures var s := UndoDown(records, |records|, old(Undoing()));
              && Enumerates(order, s.active)
              && kv == S.ApplyAll(old(kv), UndoOps(records, |records|)) && active == s.active && nextLsn == s.nextLsn + |order|
              && appended == s.appended + AbortRecords(order, s.active, s.nextLsn)
    {
      visited := UndoChains(records);
      order := AppendAborts();
    }

    /** The whole of recovery, on the log file and the store a crash has left. */
    method ARIES(ghost records: seq<LogRecord>) returns (ghost order: seq<nat>)
      requires Scannable(records) && WellFormed(records) && FitsInts(records) && storage.contents == EncodeAll(records)
      requires kv == start && active == map[] && mapping == map[] && appended == []
      modifies this
      ensures kv == RecoveredFrom(start, records)
      ensures IsLogAfter(records, order, records + appended)
      ensures IsUndoLog(UnfinishedRows(records, |records|), order, appended, MaxLsn(records) + 1)
      ensures WellFormed(records + appended) && Active(records + appended) == map[]
      ensures S.Ordered(start) ==> forall key :: FindsCurrentOrFirst(start, records, key)
      ensures Unspoilt(start, records) ==> FoundAsRecovered(start, records)
    {
      Redo(records);
      ghost var lsn := nextLsn;
      ghost var visited;
      visited, order := Undo(records);
      S.CallsAppend(start, RedoOps(records), UndoOps(records, |records|));
      AfterRecovery(records, lsn, order, appended);
      FoundAfterRecovery(start, records);
    }
  }

  /** The compensation records, then one ABORT for each transaction still active, in this order. */
  ghost predicate IsLogAfter(records: seq<LogRecord>, order: seq<nat>, log: seq<LogRecord>) {
    var lsn := MaxLsn(records) + 1;
    Enumerates(order, Undone(records, lsn).active) && log == LogAfter(records, lsn, order)
  }

  /** Every get finds what recovery is meant to leave, and exactly the keys the finished transactions left
      if and only if every key is undoable. */
  ghost predicate FoundAsRecovered(start: S.Store, records: seq<LogRecord>) {
    && (forall key :: S.Lookup(RecoveredFrom(start, records), key) == Over(start, records, Recovered(records), key))
    && (FindsKeys(start, records) <==> forall key :: LookupUndoable(records, key))
    && (FindsValues(start, records) <==> forall key :: LookupRestorable(records, key))
  }

  lemma {:induction false} FoundAfterRecovery(start: S.Store, records: seq<LogRecord>)
    ensures S.Ordered(start) ==> forall key :: FindsCurrentOrFirst(start, records, key)
    ensures Unspoilt(start, records) ==> FoundAsRecovered(start, records)
  {
    if S.Ordered(start) {
      forall key ensures FindsCurrentOrFirst(start, records, key) { FoundInAnyCase(start, records, key); }
    }
    if Unspoilt(start, records) {
      RecoveredLookups(start, records);
      FoundKeysExactly(start, records);
      FoundValuesExactly(start, records);
    }
  }

  lemma {:induction false} AfterRecovery(records: seq<LogRecord>, lsn: int, order: seq<nat>, appended: seq<LogRecord>)
    requires WellFormed(records) && lsn == MaxLsn(records) + 1
    requires var s := Undone(records, lsn);
             Enumerates(order, s.active) && appended == s.appended + AbortRecords(order, s.active, s.nextLsn)
    ensures IsLogAfter(records, order, records + appended)
    ensures IsUndoLog(UnfinishedRows(records, |records|), order, appended, lsn)
    ensures WellFormed(records + appended) && Active(records + appended) == map[]
  {
    hide Undone, WellFormed, Active, AbortRecords, UnfinishedRows, IsUndoLog, MaxLsn, Below;
    BelowNext(records);
    var s := Undone(records, lsn);
    Assoc(records, s.appended, AbortRecords(order, s.active, s.nextLsn));
    UndoLogIs(records, lsn, order);
    NothingActiveAfter(records, lsn, order);
    assert (records + appended)[|records|..] == appended;
  }

  lemma {:induction false} BelowNext(records: seq<LogRecord>)
    requires WellFormed(records)
    ensures Below(records, MaxLsn(records) + 1)
  {
    MaxLsnIsLast(records);
  }
}
