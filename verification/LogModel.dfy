// The double-buffered log of src/recovery/log_manager.cpp as a state machine:
// appends, forced-flush requests, and the flush thread's swap, write and
// publish steps, in any interleaving.
module LogModel {
  import opened Bytes
  import opened LogRecords
  import opened Sequences

  const LOG_BUFFER_SIZE := 45056

  /** Where the flush thread stands: waiting, holding a swapped buffer, or done writing it. */
  datatype Phase = Idle | Swapped | Written

  /** flushing and buffer are the bytes below the two write offsets. */
  datatype LogState = LogState(
    disk: Str, flushing: Str, buffer: Str,
    nextLsn: int, flushLsn: int, persistentLsn: int,
    needFlush: bool, phase: Phase)

  function Initial(disk: Str, base: int): LogState {
    LogState(disk, [], [], base, INVALID_LSN, INVALID_LSN, false, Idle)
  }

  datatype Step = Append(record: LogRecord) | Request | Swap | Write | Publish

  /** The append gets past its wait, and its LSN and lengths fit. */
  predicate CanAppend(s: LogState, r: LogRecord) {
    |s.buffer| + Size(r) < LOG_BUFFER_SIZE && FitsFields(r.(lsn := s.nextLsn))
  }

  predicate Enabled(s: LogState, step: Step) {
    match step
    case Append(r) => CanAppend(s, r)
    case Request => true
    case Swap => s.phase == Idle && s.buffer != []
    case Write => s.phase == Swapped
    case Publish => s.phase == Written
  }

  function Next(s: LogState, step: Step): LogState
    requires Enabled(s, step)
  {
    match step
    case Append(r) => s.(buffer := s.buffer + Encode(r.(lsn := s.nextLsn)), nextLsn := s.nextLsn + 1)
    case Request => s.(needFlush := true)
    case Swap => s.(flushing := s.buffer, buffer := [], flushLsn := s.nextLsn - 1, phase := Swapped)
    case Write => s.(disk := s.disk + s.flushing, phase := Written)
    case Publish => s.(persistentLsn := s.flushLsn, needFlush := false, phase := Idle)
  }

  /** Flush(lsn) gets past its busy wait. */
  predicate FlushReturns(s: LogState, lsn: int) {
    s.persistentLsn >= lsn
  }

  // ---- runs, with what has been appended so far ----

  /** history: every record appended, with its LSN; the counts say how many of them
      have been swapped out, written and published. */
  datatype Run = Run(log: LogState, history: seq<LogRecord>, swapped: nat, written: nat, published: nat)

  function After(run: Run, step: Step): Run {
    if !Enabled(run.log, step) then run else
      var next := Next(run.log, step);
      match step
      case Append(r) => run.(log := next, history := run.history + [r.(lsn := run.log.nextLsn)])
      case Request => run.(log := next)
      case Swap => run.(log := next, swapped := |run.history|)
      case Write => run.(log := next, written := run.swapped)
      case Publish => run.(log := next, published := run.written)
  }

  function Exec(disk: Str, base: int, steps: seq<Step>): Run {
    if steps == [] then Run(Initial(disk, base), [], 0, 0, 0)
    else After(Exec(disk, base, steps[..|steps| - 1]), steps[|steps| - 1])
  }

  function InFlight(s: LogState): Str {
    if s.phase == Swapped then s.flushing else []
  }

  ghost predicate Numbered(h: seq<LogRecord>, base: int) {
    forall k :: 0 <= k < |h| ==> h[k].lsn == base + k
  }

  ghost predicate Counts(run: Run) {
    && run.published <= run.written <= run.swapped <= |run.history|
    && (run.log.phase != Swapped ==> run.written == run.swapped)
    && (run.log.phase == Idle ==> run.published == run.written)
  }

  ghost predicate Lsns(base: int, run: Run) {
    && run.log.nextLsn == base + |run.history|
    && (run.log.phase != Idle ==> run.log.flushLsn == base + run.swapped - 1)
    && run.log.persistentLsn == (if run.published == 0 then INVALID_LSN else base + run.published - 1)
    && (run.log.phase != Idle ==> run.swapped > 0)
  }

  ghost predicate Pieces(disk: Str, run: Run) {
    && Counts(run) && AllFit(run.history)
    && run.log.disk == disk + EncodeAll(run.history[..run.written])
    && InFlight(run.log) == EncodeAll(run.history[run.written..run.swapped])
    && run.log.buffer == EncodeAll(run.history[run.swapped..])
    && |run.log.buffer| < LOG_BUFFER_SIZE && |run.log.flushing| < LOG_BUFFER_SIZE
  }

  ghost predicate Inv(disk: Str, base: int, run: Run) {
    Numbered(run.history, base) && Pieces(disk, run) && Lsns(base, run)
  }

  lemma {:induction false} EncodedNotEmpty(h: seq<LogRecord>)
    requires AllFit(h)
    ensures EncodeAll(h) == [] <==> h == []
  {
  }

  lemma {:induction false} EncodedNothing()
    ensures EncodeAll([]) == []
  {
  }

  lemma {:induction false} CutEncoding(h: seq<LogRecord>, a: nat, b: nat)
    requires a <= b <= |h| && AllFit(h)
    ensures AllFit(h[..a]) && AllFit(h[a..b]) && AllFit(h[..b]) && AllFit(h[b..])
    ensures EncodeAll(h[..b]) == EncodeAll(h[..a]) + EncodeAll(h[a..b])
    ensures EncodeAll(h) == EncodeAll(h[..b]) + EncodeAll(h[b..])
  {
    CutOnce(h, b);
    CutOnce(h[..b], a);
    assert h[..b][..a] == h[..a] && h[..b][a..] == h[a..b];
  }

  lemma {:induction false} GrowHistory(h: seq<LogRecord>, r: LogRecord, a: nat, b: nat)
    requires a <= b <= |h| && AllFit(h) && FitsFields(r)
    ensures var g := h + [r];
            && AllFit(g) && g[..a] == h[..a] && g[a..b] == h[a..b] && AllFit(h[b..]) && AllFit(g[b..])
            && EncodeAll(g[b..]) == EncodeAll(h[b..]) + Encode(r)
  {
    EncodeAllSnoc(h[b..], r);
    assert (h + [r])[b..] == h[b..] + [r];
  }

  lemma {:induction false} AppendKeeps(disk: Str, base: int, run: Run, r: LogRecord)
    requires Inv(disk, base, run) && CanAppend(run.log, r)
    ensures Inv(disk, base, After(run, Append(r)))
  {
    hide EncodeAll, Encode;
    GrowHistory(run.history, r.(lsn := run.log.nextLsn), run.written, run.swapped);
  }

  lemma {:induction false} SwapKeeps(disk: Str, base: int, run: Run)
    requires Inv(disk, base, run) && Enabled(run.log, Swap)
    ensures Inv(disk, base, After(run, Swap))
  {
    var h := run.history;
    EncodedNotEmpty(h[run.swapped..]);
    EncodedNothing();
    assert run.written == run.swapped && h[run.swapped..] == h[run.swapped..|h|] && h[|h|..] == [];
    hide EncodeAll, Numbered;
  }

  lemma {:induction false} WriteKeeps(disk: Str, base: int, run: Run)
    requires Inv(disk, base, run) && Enabled(run.log, Write)
    ensures Inv(disk, base, After(run, Write))
  {
    CutEncoding(run.history, run.written, run.swapped);
    EncodedNothing();
    hide EncodeAll;
    assert run.history[run.swapped..run.swapped] == [];
    Assoc(disk, EncodeAll(run.history[..run.written]), EncodeAll(run.history[run.written..run.swapped]));
  }

  lemma {:induction false} StepKeepsInv(disk: Str, base: int, run: Run, step: Step)
    requires Inv(disk, base, run) && Enabled(run.log, step)
    ensures Inv(disk, base, After(run, step))
  {
    match step
    case Append(r) => AppendKeeps(disk, base, run, r);
    case Request =>
    case Swap => SwapKeeps(disk, base, run);
    case Write => WriteKeeps(disk, base, run);
    case Publish =>
  }

  lemma {:induction false} RunsKeepInv(disk: Str, base: int, steps: seq<Step>)
    ensures Inv(disk, base, Exec(disk, base, steps))
  {
    if steps == [] {
      assert disk + [] == disk;
    } else {
      var run, step := Exec(disk, base, steps[..|steps| - 1]), steps[|steps| - 1];
      RunsKeepInv(disk, base, steps[..|steps| - 1]);
      if Enabled(run.log, step) { StepKeepsInv(disk, base, run, step); }
    }
  }

  // ---- what every run guarantees ----

  /** Nothing is lost, duplicated or reordered: disk, in-flight buffer and log buffer together are the
      encoding of everything appended, in LSN order; and neither buffer overflows. */
  lemma {:induction false} NothingLost(disk: Str, base: int, steps: seq<Step>)
    ensures var run := Exec(disk, base, steps);
            && AllFit(run.history) && Numbered(run.history, base)
            && run.log.disk + InFlight(run.log) + run.log.buffer == disk + EncodeAll(run.history)
            && |run.log.buffer| < LOG_BUFFER_SIZE && |run.log.flushing| < LOG_BUFFER_SIZE
  {
    RunsKeepInv(disk, base, steps);
    var run := Exec(disk, base, steps);
    var h := run.history;
    CutEncoding(h, run.written, run.swapped);
    AssocStart(disk, EncodeAll(h[..run.written]), EncodeAll(h[run.written..run.swapped]), EncodeAll(h[run.swapped..]));
  }

  /** The disk always ends with a whole record, and Flush(lsn) returns only when every record up to lsn is on it. */
  lemma {:induction false} FlushedIsDurable(disk: Str, base: nat, steps: seq<Step>, lsn: int)
    requires FlushReturns(Exec(disk, base, steps).log, lsn)
    ensures var run := Exec(disk, base, steps);
            && run.written <= |run.history| && AllFit(run.history)
            && run.log.disk == disk + EncodeAll(run.history[..run.written])
            && forall k :: 0 <= k < |run.history| && run.history[k].lsn <= lsn ==> k < run.written
  {
    RunsKeepInv(disk, base, steps);
  }

  /** A later state has everything an earlier one had: the disk and the history only grow. */
  lemma {:induction false} DiskOnlyGrows(disk: Str, base: int, steps: seq<Step>, n: nat)
    requires n <= |steps|
    ensures Exec(disk, base, steps[..n]).log.disk <= Exec(disk, base, steps).log.disk
    ensures Exec(disk, base, steps[..n]).history <= Exec(disk, base, steps).history
  {
    if n == |steps| {
      assert steps[..n] == steps;
    } else {
      DiskOnlyGrows(disk, base, steps[..|steps| - 1], n);
      assert steps[..|steps| - 1][..n] == steps[..n];
    }
  }

  lemma {:induction false} OneMore(disk: Str, base: int, steps: seq<Step>, a: Step)
    ensures Exec(disk, base, steps + [a]) == After(Exec(disk, base, steps), a)
  {
  }

  lemma {:induction false} TwoMore(disk: Str, base: int, steps: seq<Step>, a: Step, b: Step)
    ensures Exec(disk, base, steps + [a] + [b]) == After(After(Exec(disk, base, steps), a), b)
  {
  }

  /** Wherever the flush thread stands, writing and publishing bring it back to its wait. */
  lemma {:induction false} BecomesIdle(disk: Str, base: int, run: Run)
    requires Inv(disk, base, run)
    ensures var idle := After(After(run, Write), Publish);
            Inv(disk, base, idle) && idle.log.phase == Idle && idle.history == run.history
  {
    hide EncodeAll;
    if Enabled(run.log, Write) { WriteKeeps(disk, base, run); }
  }

  lemma {:induction false} IdleFlushes(disk: Str, base: nat, run: Run)
    requires Inv(disk, base, run) && run.log.phase == Idle
    ensures var done := After(After(After(run, Swap), Write), Publish);
            && done.history == run.history && done.written == |run.history|
            && (run.history != [] ==> FlushReturns(done.log, base + |run.history| - 1))
  {
  }

  ghost predicate StillAsked(disk: Str, base: int, steps: seq<Step>, i: nat)
    requires i < |steps|
  {
    steps[i] == Request && forall j :: i < j < |steps| && steps[j] == Publish ==> !Enabled(Exec(disk, base, steps[..j]).log, Publish)
  }

  /** The flush flag is set exactly when a flush has been asked for since the last one was published. */
  lemma {:induction false} FlushAsked(disk: Str, base: int, steps: seq<Step>)
    ensures Exec(disk, base, steps).log.needFlush <==> exists i :: 0 <= i < |steps| && StillAsked(disk, base, steps, i)
  {
    if steps != [] {
      var n := |steps| - 1;
      var front := steps[..n];
      FlushAsked(disk, base, front);
      forall i | 0 <= i < n
        ensures StillAsked(disk, base, steps, i) <==>
                  StillAsked(disk, base, front, i) && (steps[n] == Publish ==> !Enabled(Exec(disk, base, front).log, Publish))
      {
        forall j | 0 <= j < n ensures front[..j] == steps[..j] {}
      }
      hide Exec;
      assert steps[n] == Request <==> StillAsked(disk, base, steps, n);
      StepFlag(disk, base, steps);
      if i :| 0 <= i < n && StillAsked(disk, base, front, i) {
        assert StillAsked(disk, base, steps, i) <==> !(steps[n] == Publish && Enabled(Exec(disk, base, front).log, Publish));
      }
    }
  }

  lemma {:induction false} StepFlag(disk: Str, base: int, steps: seq<Step>)
    requires steps != []
    ensures var n := |steps| - 1; var s := Exec(disk, base, steps[..n]).log;
            Exec(disk, base, steps).log.needFlush <==>
              steps[n] == Request || (s.needFlush && !(steps[n] == Publish && Enabled(s, Publish)))
  {
    hide Encode, CanAppend;
  }

  /** Wherever the flush thread stands, its next swap makes room for every record that is smaller than the buffer. */
  lemma {:induction false} SwapMakesRoom(disk: Str, base: int, steps: seq<Step>, r: LogRecord)
    ensures var s := Exec(disk, base, steps + [Write] + [Publish] + [Swap]).log;
            CanAppend(s, r) <==> Size(r) < LOG_BUFFER_SIZE && FitsFields(r.(lsn := s.nextLsn))
  {
    RunsKeepInv(disk, base, steps);
    BecomesIdle(disk, base, Exec(disk, base, steps));
    TwoMore(disk, base, steps, Write, Publish);
    OneMore(disk, base, steps + [Write] + [Publish], Swap);
    hide Exec;
  }

  /** From any state of a run the flush thread can make every appended record durable, in five steps. */
  lemma {:induction false} FlushCanFinish(disk: Str, base: nat, steps: seq<Step>)
    ensures var run := Exec(disk, base, steps + [Write] + [Publish] + [Swap] + [Write] + [Publish]);
            && run.history == Exec(disk, base, steps).history
            && run.written == |run.history|
            && (run.history != [] ==> FlushReturns(run.log, base + |run.history| - 1))
  {
    RunsKeepInv(disk, base, steps);
    BecomesIdle(disk, base, Exec(disk, base, steps));
    TwoMore(disk, base, steps, Write, Publish);
    var idle := steps + [Write] + [Publish];
    IdleFlushes(disk, base, Exec(disk, base, idle));
    OneMore(disk, base, idle, Swap);
    TwoMore(disk, base, idle + [Swap], Write, Publish);
  }
}
