// include/recovery/log_record.h: log records and their bytes.
module LogRecords {
  import opened Options
  import opened Bytes
  import opened Sequences

  datatype LogType = Invalid | CreateTable | DropTable | Insert | Delete | Begin | Commit | Abort | Prepared

  const TYPES: seq<LogType> := [Invalid, CreateTable, DropTable, Insert, Delete, Begin, Commit, Abort, Prepared]

  const HEADER_SIZE := 24
  const INVALID_LSN := -1
  const INVALID_TXN_ID: nat := 0

  /** Key and value matter for INSERT and DELETE only. */
  datatype LogRecord = LogRecord(lsn: int, txn: nat, prevLsn: int, kind: LogType, key: Str, value: Str)

  predicate HasRow(kind: LogType) {
    kind == Insert || kind == Delete
  }

  predicate Finishes(kind: LogType) {
    kind == Commit || kind == Abort
  }

  /** The types DeserializeFrom rebuilds. */
  predicate Supported(kind: LogType) {
    HasRow(kind) || Finishes(kind) || kind == Begin
  }

  function Code(kind: LogType): (c: nat)
    ensures c < 9
  {
    match kind
    case Invalid => 0
    case CreateTable => 1
    case DropTable => 2
    case Insert => 3
    case Delete => 4
    case Begin => 5
    case Commit => 6
    case Abort => 7
    case Prepared => 8
  }

  /** GetSize */
  function Size(r: LogRecord): nat {
    HEADER_SIZE + if HasRow(r.kind) then 4 + |r.key| + 4 + |r.value| else 0
  }

  /** The fields fit their C++ types, and a record without a row has neither key nor value. */
  predicate FitsFields(r: LogRecord) {
    && -TWO_31 <= r.lsn < TWO_31 && -TWO_31 <= r.prevLsn < TWO_31
    && r.txn < TWO_64 && Size(r) < TWO_31
    && (!HasRow(r.kind) ==> r.key == [] && r.value == [])
  }

  function Header(r: LogRecord): (s: Str)
    requires FitsFields(r)
    ensures |s| == HEADER_SIZE
  {
    I32(Size(r)) + I32(r.lsn) + U64(r.txn) + I32(r.prevLsn) + U32(Code(r.kind))
  }

  function Row(key: Str, value: Str): (s: Str)
    ensures |s| == 8 + |key| + |value|
  {
    U32(|key|) + key + U32(|value|) + value
  }

  /** The bytes AppendLogRecord writes. */
  function Encode(r: LogRecord): (s: Str)
    requires FitsFields(r)
    ensures |s| == Size(r)
  {
    Header(r) + if HasRow(r.kind) then Row(r.key, r.value) else []
  }

  /** The record DeserializeFrom hands back for a type it does not know. */
  function Unknown(lsn: int): LogRecord {
    LogRecord(lsn, INVALID_TXN_ID, INVALID_LSN, Invalid, [], [])
  }

  /** DeserializeFrom; None stands for a failed assertion or a read past the end of s. */
  function Decode(s: Str): Option<LogRecord> {
    if |s| < HEADER_SIZE then None else
      var lsn, txn, prev := FromI32(s[4..8]), FromLE(s[8..16]), FromI32(s[16..20]);
      var code := FromLE(s[20..24]);
      if code == 0 then None
      else if code >= 9 || !Supported(TYPES[code]) then Some(Unknown(lsn))
      else if !HasRow(TYPES[code]) then Some(LogRecord(lsn, txn, prev, TYPES[code], [], []))
      else match DecodeRow(s[24..])
           case None => None
           case Some((key, value)) => Some(LogRecord(lsn, txn, prev, TYPES[code], key, value))
  }

  function DecodeRow(s: Str): Option<(Str, Str)> {
    if |s| < 4 then None else
      var k := FromLE(s[..4]);
      if |s| < 4 + k + 4 then None else
        var v := FromLE(s[4 + k..4 + k + 4]);
        if |s| < 4 + k + 4 + v then None else
          Some((s[4..4 + k], s[4 + k + 4..4 + k + 4 + v]))
  }

  /** The size probe of the redo scan. */
  function SizeField(s: Str): nat
    requires |s| >= 4
  {
    FromLE(s[..4])
  }

  // ---- round trips ----

  lemma {:induction false} CodeRoundTrip(kind: LogType)
    ensures TYPES[Code(kind)] == kind
  {
  }

  lemma {:induction false} RowRoundTrip(key: Str, value: Str, rest: Str)
    requires |key| < TWO_32 && |value| < TWO_32
    ensures DecodeRow(Row(key, value) + rest) == Some((key, value))
  {
    var s := Row(key, value) + rest;
    var k := |key|;
    U32RoundTrip(|key|);
    U32RoundTrip(|value|);
    assert s[..4] == U32(|key|);
    assert s[4..4 + k] == key;
    assert s[4 + k..4 + k + 4] == U32(|value|);
    assert s[4 + k + 4..4 + k + 4 + |value|] == value;
  }

  lemma {:induction false} HeaderFields(r: LogRecord, rest: Str)
    requires FitsFields(r)
    ensures var s := Header(r) + rest;
            && SizeField(s) == Size(r)
            && FromI32(s[4..8]) == r.lsn && FromLE(s[8..16]) == r.txn
            && FromI32(s[16..20]) == r.prevLsn && FromLE(s[20..24]) == Code(r.kind)
  {
    var s := Header(r) + rest;
    assert s[..4] == I32(Size(r)) && s[4..8] == I32(r.lsn) && s[8..16] == U64(r.txn);
    assert s[16..20] == I32(r.prevLsn) && s[20..24] == U32(Code(r.kind));
    U32RoundTrip(Size(r));
    I32RoundTrip(r.lsn);
    U64RoundTrip(r.txn);
    I32RoundTrip(r.prevLsn);
    U32RoundTrip(Code(r.kind));
  }

  lemma {:induction false} SmallField(n: byte)
    ensures U32(n) == [n, 0, 0, 0]
  {
    assert LE(0, 1) == [0] && LE(0, 2) == [0, 0] && LE(0, 3) == [0, 0, 0];
    assert LE(n, 4) == [n % 256] + LE(n / 256, 3);
  }

  /** The four bytes that tell the types apart. */
  lemma {:induction false} TypeField(r: LogRecord)
    requires FitsFields(r)
    ensures var code := match r.kind case Invalid => 0 case CreateTable => 1 case DropTable => 2 case Insert => 3
                        case Delete => 4 case Begin => 5 case Commit => 6 case Abort => 7 case Prepared => 8;
            Encode(r)[20..24] == [code, 0, 0, 0]
  {
    SmallField(Code(r.kind));
    hide U32, U64, I32, Row;
    assert Encode(r)[20..24] == Header(r)[20..24] == U32(Code(r.kind));
  }

  lemma {:induction false} RowParts(key: Str, value: Str)
    ensures var s, k := Row(key, value), |key|;
            s[..4] == U32(k) && s[4..4 + k] == key && s[4 + k..8 + k] == U32(|value|) && s[8 + k..] == value
  {
    hide U32;
  }

  /** Where the lengths, the key and the value lie. */
  lemma {:induction false} RowFields(r: LogRecord)
    requires FitsFields(r) && HasRow(r.kind)
    ensures var s, k := Encode(r), |r.key|;
            && FromLE(s[24..28]) == k && s[28..28 + k] == r.key
            && FromLE(s[28 + k..32 + k]) == |r.value| && s[32 + k..] == r.value
  {
    var s, row, k := Encode(r), Row(r.key, r.value), |r.key|;
    RowParts(r.key, r.value);
    U32RoundTrip(k);
    U32RoundTrip(|r.value|);
    hide U32, FromLE, Row, Header;
    assert s[24..] == row;
    assert s[24..28] == row[..4] && s[28..28 + k] == row[4..4 + k];
    assert s[28 + k..32 + k] == row[4 + k..8 + k] && s[32 + k..] == row[8 + k..];
  }

  lemma {:induction false} RowRecordRoundTrip(r: LogRecord, rest: Str)
    requires FitsFields(r) && HasRow(r.kind)
    ensures Decode(Header(r) + (Row(r.key, r.value) + rest)) == Some(r)
  {
    var s := Header(r) + (Row(r.key, r.value) + rest);
    CodeRoundTrip(r.kind);
    HeaderFields(r, Row(r.key, r.value) + rest);
    assert s[24..] == Row(r.key, r.value) + rest;
    RowRoundTrip(r.key, r.value, rest);
  }

  /** A record survives encoding and decoding, whatever follows it, exactly when its type is supported. */
  lemma {:induction false} RecordRoundTrip(r: LogRecord, rest: Str)
    requires FitsFields(r)
    ensures Decode(Encode(r) + rest) == Some(r) <==> Supported(r.kind)
    ensures SizeField(Encode(r) + rest) == Size(r) == |Encode(r)|
  {
    hide Header, Row, FromLE, FromI32;
    CodeRoundTrip(r.kind);
    if HasRow(r.kind) {
      assert Encode(r) + rest == Header(r) + (Row(r.key, r.value) + rest);
      HeaderFields(r, Row(r.key, r.value) + rest);
      RowRecordRoundTrip(r, rest);
    } else {
      assert Encode(r) + rest == Header(r) + rest;
      HeaderFields(r, rest);
    }
  }

  /** A PREPARED record does not come back: the decoder forgets everything but its LSN. */
  lemma {:induction false} PreparedIsForgotten(r: LogRecord, rest: Str)
    requires FitsFields(r) && r.kind == Prepared
    ensures Decode(Encode(r) + rest) == Some(Unknown(r.lsn))
  {
    assert Encode(r) + rest == Header(r) + rest;
    CodeRoundTrip(r.kind);
    HeaderFields(r, rest);
  }

  // ---- the decoder as it runs, moving a cursor ----

  method DeserializeFrom(storage: Str) returns (r: Option<LogRecord>)
    ensures r == Decode(storage)
  {
    if |storage| < HEADER_SIZE {
      return None;
    }
    var pos := 4;
    var lsn := FromI32(storage[pos..pos + 4]);
    pos := pos + 4;
    var txn := FromLE(storage[pos..pos + 8]);
    pos := pos + 8;
    var prev := FromI32(storage[pos..pos + 4]);
    pos := pos + 4;
    var code := FromLE(storage[pos..pos + 4]);
    pos := pos + 4;
    if code == 0 {
      return None;
    }
    if code >= |TYPES| || !Supported(TYPES[code]) {
      return Some(Unknown(lsn));
    }
    if !HasRow(TYPES[code]) {
      return Some(LogRecord(lsn, txn, prev, TYPES[code], [], []));
    }
    ghost var tail := storage[24..];
    if |storage| < pos + 4 {
      return None;
    }
    assert tail[..4] == storage[pos..pos + 4];
    var k := FromLE(storage[pos..pos + 4]);
    pos := pos + 4;
    if |storage| < pos + k + 4 {
      return None;
    }
    assert tail[4..4 + k] == storage[pos..pos + k];
    var key := storage[pos..pos + k];
    pos := pos + k;
    assert tail[4 + k..4 + k + 4] == storage[pos..pos + 4];
    var v := FromLE(storage[pos..pos + 4]);
    pos := pos + 4;
    if |storage| < pos + v {
      return None;
    }
    assert tail[4 + k + 4..4 + k + 4 + v] == storage[pos..pos + v];
    return Some(LogRecord(lsn, txn, prev, TYPES[code], key, storage[pos..pos + v]));
  }

  // ---- whole logs ----

  ghost predicate AllFit(records: seq<LogRecord>) {
    forall k :: 0 <= k < |records| ==> FitsFields(records[k])
  }

  function EncodeAll(records: seq<LogRecord>): Str
    requires AllFit(records)
  {
    if records == [] then [] else Encode(records[0]) + EncodeAll(records[1..])
  }

  lemma {:induction false} FitAppend(a: seq<LogRecord>, b: seq<LogRecord>)
    requires AllFit(a) && AllFit(b)
    ensures AllFit(a + b)
  {
  }

  lemma {:induction false} EncodeAllAppend(a: seq<LogRecord>, b: seq<LogRecord>)
    requires AllFit(a) && AllFit(b)
    ensures AllFit(a + b) && EncodeAll(a + b) == EncodeAll(a) + EncodeAll(b)
  {
    FitAppend(a, b);
    if a == [] {
      assert a + b == b;
    } else {
      var e, rest := Encode(a[0]), a[1..];
      assert AllFit(rest);
      EncodeAllAppend(rest, b);
      assert EncodeAll(a + b) == e + EncodeAll(rest + b) by { assert (a + b)[1..] == rest + b; }
      Assoc(e, EncodeAll(rest), EncodeAll(b));
    }
  }

  lemma {:induction false} EncodeAllSnoc(a: seq<LogRecord>, r: LogRecord)
    requires AllFit(a) && FitsFields(r)
    ensures AllFit(a + [r]) && EncodeAll(a + [r]) == EncodeAll(a) + Encode(r)
  {
    EncodeAllAppend(a, [r]);
    assert EncodeAll([r]) == Encode(r);
  }

  /** Cutting a log cuts its encoding. */
  lemma {:induction false} CutOnce(records: seq<LogRecord>, b: nat)
    requires b <= |records| && AllFit(records)
    ensures AllFit(records[..b]) && AllFit(records[b..]) && EncodeAll(records) == EncodeAll(records[..b]) + EncodeAll(records[b..])
  {
    EncodeAllAppend(records[..b], records[b..]);
    assert records == records[..b] + records[b..];
  }

  /** A record begins the encoding of what it begins. */
  lemma {:induction false} EncodeAllHead(records: seq<LogRecord>)
    requires AllFit(records) && records != []
    ensures AllFit(records[1..]) && EncodeAll(records) == Encode(records[0]) + EncodeAll(records[1..])
  {
  }
}
