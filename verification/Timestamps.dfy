// The hybrid timestamp oracle of meta_server/timestamp.h: its arithmetic, its
// steps, and what every run of them guarantees.
module Timestamps {
  import opened Bytes

  const PHYSICAL_SHIFT: nat := 0x4_0000 // 1 << 18
  const MAX_LOGICAL: nat := 0x4_0000
  const GUARD: nat := 1
  const INTERVAL: nat := 1
  const MAX_RETRY: nat := 100
  /** Physical times below this bound can be shifted without leaving 64 bits. */
  const TIME_LIMIT: nat := 0x4000_0000_0000

  // ---- machine arithmetic ----

  function Wrap64(x: int): nat { x % TWO_64 }

  /** A 64-bit value read as signed. */
  function Signed64(x: nat): int {
    if x < TWO_64 / 2 then x else x - TWO_64
  }

  /** signed(x): a 64-bit value cut down to a 32-bit int. */
  function Signed32(x: nat): int {
    var low := x % TWO_32;
    if low < TWO_31 then low else low - TWO_32
  }

  function ComposeTS(physical: nat, logical: nat): nat {
    Wrap64(physical * PHYSICAL_SHIFT + logical)
  }

  function ExtractPhysical(ts: nat): nat {
    ts / PHYSICAL_SHIFT
  }

  /** The physical part comes back unless the logical part carries into it, which it does at exactly 2^18. */
  lemma {:induction false} ExtractComposed(physical: nat, logical: nat)
    requires physical + 1 < TIME_LIMIT && logical <= MAX_LOGICAL
    ensures ComposeTS(physical, logical) == physical * PHYSICAL_SHIFT + logical
    ensures ExtractPhysical(ComposeTS(physical, logical)) == physical <==> logical < MAX_LOGICAL
    ensures logical == MAX_LOGICAL ==> ComposeTS(physical, logical) == ComposeTS(physical + 1, 0)
  {
  }

  /** When updateTimestamp writes the file: the 32-bit difference it tests, in terms of the true one. */
  lemma {:induction false} SaveTest(lastTS: nat, next: nat)
    requires lastTS < TWO_64 && next < TWO_64
    ensures var d := Wrap64(next - lastTS) % TWO_32;
            Signed32(Wrap64(lastTS - next)) <= GUARD <==> d <= TWO_31 || d == TWO_32 - 1
  {
    Opposite(lastTS, next);
    LowHalf(Wrap64(next - lastTS));
  }

  lemma {:induction false} Opposite(a: nat, b: nat)
    requires a < TWO_64 && b < TWO_64
    ensures Wrap64(a - b) == if a == b then 0 else TWO_64 - Wrap64(b - a)
  {
  }

  lemma {:induction false} LowHalf(d: nat)
    requires d < TWO_64
    ensures var low := d % TWO_32; (TWO_64 - d) % TWO_32 == if low == 0 then 0 else TWO_32 - low
  {
    var high, low := d / TWO_32, d % TWO_32;
    assert TWO_64 - d == (TWO_32 - high) * TWO_32 - low;
  }

  // ---- the steps ----

  /** The saved file alone, or the file and a running server. */
  datatype Oracle =
    | Down(saved: nat)
    | Up(saved: nat, lastTS: nat, physical: nat, logical: nat)

  /** syncTimestamp: the physical time to start with. */
  function SyncTo(saved: nat, now: nat): nat {
    if Wrap64(now - saved) < GUARD then Wrap64(saved + GUARD) else now
  }

  function Sync(saved: nat, now: nat): Oracle {
    var next := SyncTo(saved, now);
    Up(Wrap64(next + INTERVAL), saved, next, 0)
  }

  /** updateTimestamp: the physical time to move to, if it moves at all. */
  predicate Moves(o: Oracle, now: nat)
    requires o.Up?
  {
    Signed64(Wrap64(now - o.physical)) > GUARD || o.logical > MAX_LOGICAL / 2
  }

  function MoveTo(o: Oracle, now: nat): nat
    requires o.Up?
  {
    if Signed64(Wrap64(now - o.physical)) > GUARD then now else Wrap64(o.physical + 1)
  }

  predicate Saves(lastTS: nat, next: nat) {
    Signed32(Wrap64(lastTS - next)) <= GUARD
  }

  function SavedBy(o: Oracle, now: nat): nat
    requires o.Up?
  {
    if Moves(o, now) && Saves(o.lastTS, MoveTo(o, now)) then Wrap64(MoveTo(o, now) + INTERVAL) else o.saved
  }

  function Update(o: Oracle, now: nat): Oracle
    requires o.Up?
  {
    if Moves(o, now) then Up(SavedBy(o, now), o.lastTS, MoveTo(o, now), 0) else o
  }

  /** What one attempt of getTimeStamp takes away from its critical section. */
  datatype Ticket = Ticket(physical: nat, logical: nat)

  /** An attempt with such a ticket may return a timestamp; any other is retried. */
  predicate Usable(t: Ticket) {
    t.logical <= MAX_LOGICAL
  }

  function Timestamp(t: Ticket): nat {
    ComposeTS(t.physical, t.logical)
  }

  datatype Event =
    | Start(now: nat)
    | StartCrash(now: nat)  // the file is written, the server dies before it is up
    | Tick(now: nat)
    | TickCrash(now: nat)   // the file is written, the server dies before its clock moves
    | Take
    | Crash

  datatype Run = Run(oracle: Oracle, tickets: seq<Ticket>)

  predicate Enabled(o: Oracle, e: Event) {
    o.Down? <==> e.Start? || e.StartCrash?
  }

  function After(run: Run, e: Event): Run {
    var o := run.oracle;
    if !Enabled(o, e) then run else
      match e
      case Start(now) => run.(oracle := Sync(o.saved, now))
      case StartCrash(now) => run.(oracle := Down(Sync(o.saved, now).saved))
      case Tick(now) => run.(oracle := Update(o, now))
      case TickCrash(now) => run.(oracle := Down(SavedBy(o, now)))
      case Take =>
        Run(o.(logical := o.logical + 1), run.tickets + [Ticket(o.physical, o.logical + 1)])
      case Crash => run.(oracle := Down(o.saved))
  }

  function Exec(start: Oracle, events: seq<Event>): Run {
    if events == [] then Run(start, []) else After(Exec(start, events[..|events| - 1]), events[|events| - 1])
  }

  lemma {:induction false} OneMore(start: Oracle, events: seq<Event>, e: Event)
    ensures Exec(start, events + [e]) == After(Exec(start, events), e)
  {
    assert (events + [e])[..|events|] == events;
  }

  // ---- order ----

  predicate Before(a: Ticket, b: Ticket) {
    a.physical < b.physical || (a.physical == b.physical && a.logical < b.logical)
  }

  /** Also at logical 2^18, where the timestamp carries into the next physical time. */
  lemma {:induction false} TimestampsFollowTickets(a: Ticket, b: Ticket)
    requires Before(a, b) && Usable(a) && Usable(b) && b.logical > 0 && b.physical + 1 < TIME_LIMIT
    ensures Timestamp(a) < Timestamp(b)
  {
  }

  ghost predicate InOrder(tickets: seq<Ticket>) {
    && (forall i, j :: 0 <= i < j < |tickets| ==> Before(tickets[i], tickets[j]))
    && (forall i :: 0 <= i < |tickets| ==> tickets[i].logical > 0)
  }

  /** Every ticket is from the server's current time or before. */
  ghost predicate UpTo(tickets: seq<Ticket>, physical: nat, logical: nat) {
    forall i :: 0 <= i < |tickets| ==>
      tickets[i].physical < physical || (tickets[i].physical == physical && tickets[i].logical <= logical)
  }

  /** Physical times that fit. */
  predicate InRange(o: Oracle) {
    && o.saved + 1 < TIME_LIMIT
    && (o.Up? ==> o.lastTS < TIME_LIMIT && o.physical + 1 < TIME_LIMIT)
  }

  predicate ClockInRange(e: Event) {
    (e.Start? || e.StartCrash? || e.Tick? || e.TickCrash?) ==> e.now + 1 < TIME_LIMIT
  }

  /** The physical time never falls, whatever the clock reads. */
  lemma {:induction false} UpdateNeverFalls(o: Oracle, now: nat)
    requires o.Up? && InRange(o) && now + 1 < TIME_LIMIT
    ensures var o' := Update(o, now); o' == o || (o'.physical > o.physical && o'.logical == 0)
  {
  }

  /** The difference to lastTS is one whose 32-bit test writes the file. */
  predicate InWindow(lastTS: nat, next: nat) {
    var d := Wrap64(next - lastTS) % TWO_32;
    d <= TWO_31 || d == TWO_32 - 1
  }

  /** What syncTimestamp starts with: the clock, one past the file if it reads just that; the file is one ahead. */
  lemma {:induction false} SyncExactly(saved: nat, now: nat)
    requires saved + 2 < TIME_LIMIT && now + 2 < TIME_LIMIT
    ensures Sync(saved, now) ==
              if now == saved then Up(saved + 2, saved, saved + 1, 0) else Up(now + 1, saved, now, 0)
  {
  }

  /** What updateTimestamp does: to the clock if that is more than one ahead, else one on if more than half of the
      logical numbers are used, else nothing; the file goes one ahead of the new time if that is in the window. */
  lemma {:induction false} UpdateExactly(o: Oracle, now: nat)
    requires o.Up? && InRange(o) && now + 1 < TIME_LIMIT
    ensures Update(o, now) ==
              if now > o.physical + 1 then
                Up(if InWindow(o.lastTS, now) then now + 1 else o.saved, o.lastTS, now, 0)
              else if o.logical > MAX_LOGICAL / 2 then
                Up(if InWindow(o.lastTS, o.physical + 1) then o.physical + 2 else o.saved, o.lastTS, o.physical + 1, 0)
              else o
  {
    MovesExactly(o, now);
    SavesExactly(o.lastTS, now);
    SavesExactly(o.lastTS, o.physical + 1);
    hide Moves, MoveTo, Saves, InWindow, Wrap64;
  }

  lemma {:induction false} MovesExactly(o: Oracle, now: nat)
    requires o.Up? && InRange(o) && now + 1 < TIME_LIMIT
    ensures Moves(o, now) <==> now > o.physical + 1 || o.logical > MAX_LOGICAL / 2
    ensures MoveTo(o, now) == if now > o.physical + 1 then now else o.physical + 1
  {
    ClockLead(o.physical, now);
    hide Signed64;
  }

  lemma {:induction false} SavesExactly(lastTS: nat, next: nat)
    requires lastTS < TIME_LIMIT && next < TIME_LIMIT
    ensures Saves(lastTS, next) <==> InWindow(lastTS, next)
    ensures Wrap64(next + INTERVAL) == next + 1
  {
    SaveTest(lastTS, next);
    hide Signed32;
  }

  lemma {:induction false} ClockLead(physical: nat, now: nat)
    requires physical < TIME_LIMIT && now < TIME_LIMIT
    ensures Signed64(Wrap64(now - physical)) == now - physical
  {
  }

  // ---- one synced run ----

  ghost predicate Serving(events: seq<Event>) {
    forall i :: 0 <= i < |events| ==> events[i].Tick? || events[i].Take?
  }

  ghost predicate StaysInRange(start: Oracle, events: seq<Event>) {
    InRange(Exec(start, events).oracle)
    && (events != [] ==> ClockInRange(events[|events| - 1]) && StaysInRange(start, events[..|events| - 1]))
  }

  lemma {:induction false} ServingKeepsOrder(start: Oracle, events: seq<Event>)
    requires start.Up? && Serving(events) && StaysInRange(start, events)
    ensures var run := Exec(start, events);
            run.oracle.Up? && InOrder(run.tickets) && UpTo(run.tickets, run.oracle.physical, run.oracle.logical)
  {
    if events != [] {
      var front, e := events[..|events| - 1], events[|events| - 1];
      ServingKeepsOrder(start, front);
      assert e.Tick? || e.Take?;
      if e.Tick? { UpdateNeverFalls(Exec(start, front).oracle, e.now); }
    }
  }

  /** A started server is at its clock, or one past the file. */
  lemma {:induction false} StartsAtClock(start: Oracle, events: seq<Event>, now: nat)
    requires var o := Exec(start, events).oracle; o.Down? && o.saved + 2 < TIME_LIMIT && now + 2 < TIME_LIMIT
    ensures var o, saved := Exec(start, events + [Start(now)]).oracle, Exec(start, events).oracle.saved;
            o.Up? && o.logical == 0 && o.physical == (if now == saved then now + 1 else now) && o.saved == o.physical + 1
  {
    OneMore(start, events, Start(now));
    SyncExactly(Exec(start, events).oracle.saved, now);
  }

  /** A server that dies leaves its file, tickets stay issued; dying right after a start-up or an update has written
      the file leaves what dying after the whole step does. */
  lemma {:induction false} CrashKeepsFile(start: Oracle, events: seq<Event>, now: nat)
    ensures var run := Exec(start, events);
            run.oracle.Up? ==> Exec(start, events + [Crash]) == Run(Down(run.oracle.saved), run.tickets)
    ensures Exec(start, events).oracle.Up? ==>
              Exec(start, events + [TickCrash(now)]) == Exec(start, events + [Tick(now)] + [Crash])
    ensures Exec(start, events).oracle.Down? ==>
              Exec(start, events + [StartCrash(now)]) == Exec(start, events + [Start(now)] + [Crash])
  {
    OneMore(start, events, Crash);
    OneMore(start, events, TickCrash(now));
    OneMore(start, events, StartCrash(now));
    OneMore(start, events, Tick(now));
    OneMore(start, events, Start(now));
    OneMore(start, events + [Tick(now)], Crash);
    OneMore(start, events + [Start(now)], Crash);
    hide Exec, MoveTo, Moves, Saves, SyncTo;
  }

  /** However the calls and updates interleave, the server is never more than one behind a clock reading it has had. */
  lemma {:induction false} KeepsUpWithClock(start: Oracle, events: seq<Event>, i: nat)
    requires start.Up? && Serving(events) && StaysInRange(start, events) && i < |events| && events[i].Tick?
    ensures Exec(start, events).oracle.Up? && Exec(start, events).oracle.physical + 1 >= events[i].now
  {
    var front, e := events[..|events| - 1], events[|events| - 1];
    ServingKeepsOrder(start, front);
    var o := Exec(start, front).oracle;
    if i < |front| { KeepsUpWithClock(start, front, i); }
    assert e.Tick? || e.Take?;
    if e.Tick? {
      UpdateNeverFalls(o, e.now);
      UpdateExactly(o, e.now);
    }
  }

  /** Within one synced run, whatever the clock reads and however the calls interleave with clock updates,
      returned timestamps strictly increase in the order of their critical sections. */
  lemma {:induction false} TimestampsIncrease(start: Oracle, events: seq<Event>, i: nat, j: nat)
    requires start.Up? && Serving(events) && StaysInRange(start, events)
    requires i < j < |Exec(start, events).tickets|
    requires Usable(Exec(start, events).tickets[i]) && Usable(Exec(start, events).tickets[j])
    ensures Timestamp(Exec(start, events).tickets[i]) < Timestamp(Exec(start, events).tickets[j])
  {
    ServingKeepsOrder(start, events);
    TimestampsFollowTickets(Exec(start, events).tickets[i], Exec(start, events).tickets[j]);
  }

  // ---- whole calls ----

  /** What others do while a getTimeStamp call is between an attempt and its second look at the physical time,
      and while it sleeps before the next attempt. */
  datatype Meanwhile = Meanwhile(beforeCheck: seq<Event>, beforeRetry: seq<Event>)

  ghost predicate AllServing(others: seq<Meanwhile>) {
    forall i :: 0 <= i < |others| ==> Serving(others[i].beforeCheck) && Serving(others[i].beforeRetry)
  }

  /** Everything that happens up to the call's second look at the physical time in attempt n. */
  function UntilCheck(others: seq<Meanwhile>, n: nat): seq<Event>
    requires n < |others|
  {
    UntilAttempt(others, n) + [Take] + others[n].beforeCheck
  }

  /** And up to attempt n itself. */
  function UntilAttempt(others: seq<Meanwhile>, n: nat): seq<Event>
    requires n <= |others|
    decreases n, 0
  {
    if n == 0 then [] else UntilAttempt(others, n - 1) + [Take] + others[n - 1].beforeCheck + others[n - 1].beforeRetry
  }

  function TicketOf(start: Oracle, others: seq<Meanwhile>, n: nat): Ticket
    requires n <= |others|
  {
    var o := Exec(start, UntilAttempt(others, n)).oracle;
    if o.Up? then Ticket(o.physical, o.logical + 1) else Ticket(0, 0)
  }

  predicate Accepted(start: Oracle, others: seq<Meanwhile>, n: nat)
    requires n < |others|
  {
    var o := Exec(start, UntilCheck(others, n)).oracle;
    o.Up? && o.physical != 0 && Usable(TicketOf(start, others, n))
  }

  lemma {:induction false} OneOfMany(start: Oracle, before: seq<Event>, events: seq<Event>, i: nat)
    requires i < |events|
    ensures Exec(start, before + events[..i + 1]) == After(Exec(start, before + events[..i]), events[i])
  {
    assert before + events[..i + 1] == (before + events[..i]) + [events[i]];
    OneMore(start, before + events[..i], events[i]);
  }

  /** Serving does not bring a server down. */
  lemma {:induction false} ServesOn(start: Oracle, events: seq<Event>)
    requires start.Up? && Serving(events)
    ensures Exec(start, events).oracle.Up?
  {
    if events != [] {
      ServesOn(start, events[..|events| - 1]);
      assert events[|events| - 1].Tick? || events[|events| - 1].Take?;
    }
  }

  lemma {:induction false} NothingYet(others: seq<Meanwhile>)
    ensures UntilAttempt(others, 0) == []
  {
  }

  lemma {:induction false} UntilAttemptServes(others: seq<Meanwhile>, n: nat)
    requires n <= |others| && AllServing(others)
    ensures Serving(UntilAttempt(others, n))
    ensures n < |others| ==> Serving(UntilCheck(others, n))
  {
    if n > 0 { UntilAttemptServes(others, n - 1); }
  }

  /** Whatever others do before and during a call: the timestamp it returns is larger than every timestamp
      that anyone's earlier attempt could have given. */
  lemma {:induction false} CallIsFresh(start: Oracle, others: seq<Meanwhile>, n: nat, i: nat)
    requires start.Up? && n < |others| && AllServing(others) && StaysInRange(start, UntilAttempt(others, n) + [Take])
    requires Accepted(start, others, n)
    requires i < |Exec(start, UntilAttempt(others, n)).tickets| && Usable(Exec(start, UntilAttempt(others, n)).tickets[i])
    ensures Timestamp(Exec(start, UntilAttempt(others, n)).tickets[i]) < Timestamp(TicketOf(start, others, n))
  {
    var before := UntilAttempt(others, n);
    UntilAttemptServes(others, n);
    ServesOn(start, before);
    OneMore(start, before, Take);
    TimestampsIncrease(start, before + [Take], i, |Exec(start, before).tickets|);
  }

  lemma {:induction false} PhysicalStays(start: Oracle, events: seq<Event>)
    requires start.Up? && start.physical != 0 && Serving(events) && StaysInRange(start, events)
    ensures Exec(start, events).oracle.Up? && Exec(start, events).oracle.physical != 0
  {
    if events != [] {
      var front, e := events[..|events| - 1], events[|events| - 1];
      PhysicalStays(start, front);
      assert e.Tick? || e.Take?;
      if e.Tick? { UpdateNeverFalls(Exec(start, front).oracle, e.now); }
    }
  }

  /** Attempt n draws the next ticket of the run; it is accepted exactly when the logical part fits and the server is
      synced at the second look. Once synced it stays so, whatever others do. */
  lemma {:induction false} AcceptedExactly(start: Oracle, others: seq<Meanwhile>, n: nat)
    requires start.Up? && n < |others| && AllServing(others)
    ensures var before, drawn := Exec(start, UntilAttempt(others, n)).tickets, TicketOf(start, others, n);
            var check := Exec(start, UntilCheck(others, n)).oracle;
            && check.Up? && Exec(start, UntilAttempt(others, n) + [Take]).tickets == before + [drawn]
            && (Accepted(start, others, n) <==> drawn.logical <= MAX_LOGICAL && check.physical != 0)
    ensures start.physical != 0 && StaysInRange(start, UntilCheck(others, n)) ==>
              (Accepted(start, others, n) <==> TicketOf(start, others, n).logical <= MAX_LOGICAL)
  {
    UntilAttemptServes(others, n);
    ServesOn(start, UntilAttempt(others, n));
    ServesOn(start, UntilCheck(others, n));
    OneMore(start, UntilAttempt(others, n), Take);
    if start.physical != 0 && StaysInRange(start, UntilCheck(others, n)) { PhysicalStays(start, UntilCheck(others, n)); }
    hide Exec, UntilAttempt, UntilCheck, StaysInRange;
  }

  predicate Undisturbed(others: seq<Meanwhile>) {
    forall i :: 0 <= i < |others| ==> others[i] == Meanwhile([], [])
  }

  /** With nobody else about, each attempt uses up one logical number of the same physical time. */
  lemma {:induction false} UndisturbedAttempt(start: Oracle, others: seq<Meanwhile>, n: nat)
    requires start.Up? && Undisturbed(others) && n < |others|
    ensures TicketOf(start, others, n) == Ticket(start.physical, start.logical + n + 1)
    ensures Accepted(start, others, n) <==> start.physical != 0 && start.logical + n < MAX_LOGICAL
  {
    TakesOnly(start, others, n);
    assert UntilCheck(others, n) == UntilAttempt(others, n) + [Take];
    OneMore(start, UntilAttempt(others, n), Take);
  }

  lemma {:induction false} TakesOnly(start: Oracle, others: seq<Meanwhile>, n: nat)
    requires start.Up? && Undisturbed(others) && n <= |others|
    ensures Exec(start, UntilAttempt(others, n)).oracle == start.(logical := start.logical + n)
  {
    if n > 0 {
      TakesOnly(start, others, n - 1);
      assert UntilAttempt(others, n) == UntilAttempt(others, n - 1) + [Take];
      OneMore(start, UntilAttempt(others, n - 1), Take);
    }
  }

  /** An attempt refused for want of logical numbers: the next clock update resets them, and the first 2^18 attempts
      after it, by whomever, are not refused for that. */
  lemma {:induction false} RetrySucceeds(o: Oracle, now: nat, events: seq<Event>)
    requires o.Up? && o.logical >= MAX_LOGICAL && Serving(events) && |events| < MAX_LOGICAL
    ensures var end := Exec(Update(o, now), events).oracle;
            end.Up? && end.logical <= |events| && Usable(Ticket(end.physical, end.logical + 1))
  {
    FewTickets(Update(o, now), events);
  }

  lemma {:induction false} FewTickets(o: Oracle, events: seq<Event>)
    requires o.Up? && o.logical == 0 && Serving(events)
    ensures var end := Exec(o, events).oracle; end.Up? && end.logical <= |events|
  {
    if events != [] {
      FewTickets(o, events[..|events| - 1]);
      assert events[|events| - 1].Tick? || events[|events| - 1].Take?;
    }
  }

  // ---- crashes and restarts ----

  /** The file has kept up: no restart from it, on a clock not behind it, reaches back to the server's time. */
  ghost predicate Ahead(run: Run) {
    && InOrder(run.tickets)
    && match run.oracle
       case Up(saved, _, physical, logical) => UpTo(run.tickets, physical, logical) && saved >= physical
       case Down(saved) => forall i :: 0 <= i < |run.tickets| ==> run.tickets[i].physical <= saved
  }

  /** One restart issues larger timestamps than the crashed server's last one exactly when it starts past its time. */
  lemma {:induction false} RestartExactly(o: Oracle, now: nat)
    requires o.Up? && InRange(o) && now + 2 < TIME_LIMIT && o.saved + 2 < TIME_LIMIT && 0 < o.logical <= MAX_LOGICAL
    ensures Timestamp(Ticket(o.physical, o.logical)) < Timestamp(Ticket(Sync(o.saved, now).physical, 1))
            <==> SyncTo(o.saved, now) > o.physical
  {
    ExtractComposed(o.physical, o.logical);
    ExtractComposed(Sync(o.saved, now).physical, 1);
  }

  /** Every restart on a clock not behind the file does so exactly when the file is not behind the crashed server. */
  lemma {:induction false} RestartsExactly(o: Oracle)
    requires o.Up? && InRange(o) && o.saved + 2 < TIME_LIMIT && 0 < o.logical <= MAX_LOGICAL
    ensures (forall now: nat {:trigger Sync(o.saved, now)} :: o.saved <= now && now + 2 < TIME_LIMIT ==>
               Timestamp(Ticket(o.physical, o.logical)) < Timestamp(Ticket(Sync(o.saved, now).physical, 1)))
            <==> o.saved >= o.physical
  {
    forall now: nat | o.saved <= now && now + 2 < TIME_LIMIT
      ensures Timestamp(Ticket(o.physical, o.logical)) < Timestamp(Ticket(Sync(o.saved, now).physical, 1))
              <==> SyncTo(o.saved, now) > o.physical
    {
      RestartExactly(o, now);
    }
    assert Sync(o.saved, o.saved).physical == o.saved + 1;
  }

  /** A clock update leaves the file not behind exactly when it is inside the window or the file was ahead anyway. */
  lemma {:induction false} UpdateSavesExactly(o: Oracle, now: nat)
    requires o.Up? && InRange(o) && now + 1 < TIME_LIMIT && Moves(o, now)
    ensures Update(o, now).saved >= Update(o, now).physical <==> InWindow(o.lastTS, MoveTo(o, now)) || o.saved >= MoveTo(o, now)
  {
    var next := MoveTo(o, now);
    SaveTest(o.lastTS, next);
    assert next < TIME_LIMIT && Wrap64(next + INTERVAL) == next + INTERVAL;
    hide Wrap64, MoveTo, Signed32;
  }

  /** What can be checked before a clock update. */
  predicate TickGuard(o: Oracle, e: Event) {
    e.Tick? && o.Up? && Moves(o, e.now) ==> InWindow(o.lastTS, MoveTo(o, e.now)) || o.saved >= MoveTo(o, e.now)
  }

  /** A restart reads a clock not behind the file. */
  predicate NotBehind(o: Oracle, e: Event) {
    (e.Start? || e.StartCrash?) && o.Down? ==> e.now >= o.saved
  }

  lemma {:induction false} TickAhead(run: Run, now: nat)
    requires Ahead(run) && run.oracle.Up? && InRange(run.oracle) && now + 1 < TIME_LIMIT
    ensures Ahead(After(run, Tick(now))) <==> TickGuard(run.oracle, Tick(now))
    ensures Ahead(After(run, TickCrash(now)))
  {
    UpdateNeverFalls(run.oracle, now);
    if Moves(run.oracle, now) { UpdateSavesExactly(run.oracle, now); }
  }

  lemma {:induction false} StartAhead(run: Run, now: nat)
    requires Ahead(run) && run.oracle.Down? && run.oracle.saved <= now && now + 1 < TIME_LIMIT
    requires InRange(After(run, Start(now)).oracle)
    ensures Ahead(After(run, Start(now))) && Ahead(After(run, StartCrash(now)))
  {
  }

  lemma {:induction false} StepAhead(run: Run, e: Event)
    requires Ahead(run) && InRange(run.oracle) && ClockInRange(e) && NotBehind(run.oracle, e)
    requires InRange(After(run, e).oracle)
    ensures Ahead(After(run, e)) <==> TickGuard(run.oracle, e)
  {
    if Enabled(run.oracle, e) {
      match e
      case Start(now) => StartAhead(run, now);
      case StartCrash(now) =>
      case Tick(now) => TickAhead(run, now);
      case TickCrash(now) => TickAhead(run, now);
      case Take =>
      case Crash =>
    }
  }

  ghost predicate RestartsNotBehind(start: Oracle, events: seq<Event>) {
    events != [] ==>
      var front := events[..|events| - 1];
      RestartsNotBehind(start, front) && NotBehind(Exec(start, front).oracle, events[|events| - 1])
  }

  ghost predicate AllTicksGuarded(start: Oracle, events: seq<Event>) {
    events != [] ==>
      var front := events[..|events| - 1];
      AllTicksGuarded(start, front) && TickGuard(Exec(start, front).oracle, events[|events| - 1])
  }

  ghost predicate AlwaysAhead(start: Oracle, events: seq<Event>) {
    Ahead(Exec(start, events)) && (events != [] ==> AlwaysAhead(start, events[..|events| - 1]))
  }

  /** Over any run whose restarts are not behind the file, with crashes at any step, also between writing the file
      and moving the clock: tickets are in order and the file has kept up at every moment exactly when every clock
      update met its guard. */
  lemma {:induction false} RunsAheadExactly(saved: nat, events: seq<Event>)
    requires StaysInRange(Down(saved), events) && RestartsNotBehind(Down(saved), events)
    ensures AlwaysAhead(Down(saved), events) <==> AllTicksGuarded(Down(saved), events)
  {
    if events != [] {
      var front := events[..|events| - 1];
      RunsAheadExactly(saved, front);
      if AlwaysAhead(Down(saved), front) {
        StepAhead(Exec(Down(saved), front), events[|events| - 1]);
      }
    }
  }

  /** In such runs timestamps keep strictly increasing across any number of crashes. */
  lemma {:induction false} RestartsAreSafe(saved: nat, events: seq<Event>, i: nat, j: nat)
    requires StaysInRange(Down(saved), events) && RestartsNotBehind(Down(saved), events)
    requires AllTicksGuarded(Down(saved), events)
    requires i < j < |Exec(Down(saved), events).tickets|
    requires Usable(Exec(Down(saved), events).tickets[i]) && Usable(Exec(Down(saved), events).tickets[j])
    ensures Timestamp(Exec(Down(saved), events).tickets[i]) < Timestamp(Exec(Down(saved), events).tickets[j])
  {
    RunsAheadExactly(saved, events);
    var run := Exec(Down(saved), events);
    TimestampsFollowTickets(run.tickets[i], run.tickets[j]);
  }

  /** A server whose file has fallen behind goes back in time: it issues a timestamp, crashes, starts again on a clock
      that reads the persisted value, and its next timestamp is not larger. */
  lemma {:induction false} FallenBehind(start: Oracle, events: seq<Event>)
    requires var o := Exec(start, events).oracle; o.Up? && InRange(o) && o.saved < o.physical && o.logical < MAX_LOGICAL
    ensures var o := Exec(start, events).oracle;
            var t := Exec(start, events + [Take] + [Crash] + [Start(o.saved)] + [Take]).tickets;
            var n := |Exec(start, events).tickets|;
            && |t| == n + 2 && Usable(t[n]) && Usable(t[n + 1])
            && Timestamp(t[n + 1]) <= Timestamp(t[n])
  {
    hide Exec, Timestamp;
    FourMore(start, events, Exec(start, events).oracle);
    GoesBack(Exec(start, events).oracle);
  }

  lemma {:induction false} FourMore(start: Oracle, events: seq<Event>, o: Oracle)
    requires o == Exec(start, events).oracle && o.Up?
    ensures Exec(start, events + [Take] + [Crash] + [Start(o.saved)] + [Take]).tickets ==
              Exec(start, events).tickets + [Ticket(o.physical, o.logical + 1)] + [Ticket(Sync(o.saved, o.saved).physical, 1)]
  {
    hide Exec;
    OneMore(start, events, Take);
    OneMore(start, events + [Take], Crash);
    OneMore(start, events + [Take] + [Crash], Start(o.saved));
    OneMore(start, events + [Take] + [Crash] + [Start(o.saved)], Take);
  }

  lemma {:induction false} GoesBack(o: Oracle)
    requires o.Up? && InRange(o) && o.saved < o.physical && o.logical < MAX_LOGICAL
    ensures Timestamp(Ticket(Sync(o.saved, o.saved).physical, 1)) <= Timestamp(Ticket(o.physical, o.logical + 1))
  {
    assert Sync(o.saved, o.saved).physical == o.saved + 1;
    ExtractComposed(o.physical, o.logical + 1);
    ExtractComposed(o.saved + 1, 1);
  }

  lemma {:induction false} FarUpdate(far: nat)
    requires far == TWO_31 + 1
    ensures Update(Up(2, 0, 1, 0), far) == Up(2, 0, far, 0)
  {
    assert Wrap64(far - 1) == far - 1 && Wrap64(far - 0) == far && far % TWO_32 == far;
    SaveTest(0, far);
    assert !Saves(0, far);
  }

  /** And such a run exists: on a first start one update to 2^31 + 1 is outside the window. */
  lemma {:induction false} WindowMatters()
    ensures var o := Exec(Down(0), [Start(1)] + [Tick(TWO_31 + 1)]).oracle;
            o.Up? && InRange(o) && o.saved == 2 && o.physical == TWO_31 + 1 && o.logical == 0
  {
    hide Exec, Sync, Update;
    FirstStart();
    OneMore(Down(0), [Start(1)], Tick(TWO_31 + 1));
    FarUpdate(TWO_31 + 1);
  }

  lemma {:induction false} FirstStart()
    ensures Exec(Down(0), [Start(1)]) == Run(Up(2, 0, 1, 0), [])
  {
    OneMore(Down(0), [], Start(1));
    assert [] + [Start(1)] == [Start(1)];
    assert Sync(0, 1) == Up(2, 0, 1, 0);
  }
}
