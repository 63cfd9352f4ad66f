// The Oracle class of meta_server/timestamp.h. A method is one critical section
// or, with what other callers do in between as an argument, a whole call.
module OracleServers {
  import opened Timestamps

  class OracleServer {
    /** The timestamp file; it survives a crash. */
    var saved: nat
    var lastTS: nat
    var physical: nat
    var logical: nat

    function View(): Oracle
      reads this
    {
      Up(saved, lastTS, physical, logical)
    }

    /** A new server over the file an earlier one left; it issues nothing before it is synced. */
    constructor (saved: nat)
      ensures View() == Up(saved, 0, 0, 0)
    {
      this.saved := saved;
      lastTS, physical, logical := 0, 0, 0;
    }

    method SyncTimestamp(now: nat)
      modifies this
      ensures View() == Sync(old(saved), now)
      ensures old(saved) + 2 < TIME_LIMIT && now + 2 < TIME_LIMIT ==>
                && physical == (if now == old(saved) then now + 1 else now) && logical == 0
                && saved == physical + 1 && lastTS == old(saved)
    {
      if saved + 2 < TIME_LIMIT && now + 2 < TIME_LIMIT { SyncExactly(saved, now); }
      lastTS := saved;
      var next := now;
      if Wrap64(next - lastTS) < GUARD {
        next := Wrap64(lastTS + GUARD);
      }
      saved := Wrap64(next + INTERVAL);
      physical := next;
      logical := 0;
    }

    method UpdateTimestamp(now: nat)
      modifies this
      ensures View() == Update(old(View()), now)
      ensures old(InRange(View())) && now + 1 < TIME_LIMIT ==>
                && physical == (if now > old(physical) + 1 then now
                                else if old(logical) > MAX_LOGICAL / 2 then old(physical) + 1 else old(physical))
                && logical == (if physical == old(physical) then old(logical) else 0)
                && saved == (if physical != old(physical) && InWindow(lastTS, physical) then physical + 1 else old(saved))
                && lastTS == old(lastTS)
    {
      if InRange(View()) && now + 1 < TIME_LIMIT { UpdateExactly(View(), now); }
      var jetLag := Signed64(Wrap64(now - physical));
      var next;
      if jetLag > GUARD {
        next := now;
      } else if logical > MAX_LOGICAL / 2 {
        next := Wrap64(physical + 1);
      } else {
        return;
      }
      if Signed32(Wrap64(lastTS - next)) <= GUARD {
        saved := Wrap64(next + INTERVAL);
      }
      physical := next;
      logical := 0;
    }

    /** The critical section of one attempt of getTimeStamp. */
    method TakeTicket() returns (t: Ticket)
      modifies this`logical
      ensures logical == old(logical) + 1 && t == Ticket(physical, logical)
      ensures Run(View(), [t]) == After(Run(old(View()), []), Take)
    {
      logical := logical + 1;
      t := Ticket(physical, logical);
    }

    /** Other callers' attempts and clock updates. */
    method Serve(events: seq<Event>, ghost start: Oracle, ghost before: seq<Event>)
      requires Serving(events) && View() == Exec(start, before).oracle
      modifies this
      ensures View() == Exec(start, before + events).oracle
    {
      var i := 0;
      assert before + events[..0] == before;
      while i < |events|
        invariant i <= |events| && View() == Exec(start, before + events[..i]).oracle
        decreases |events| - i
      {
        OneOfMany(start, before, events, i);
        match events[i] {
          case Tick(now) => UpdateTimestamp(now);
          case Take => var _ := TakeTicket();
        }
        i := i + 1;
      }
      assert events[..|events|] == events;
    }

    /** One attempt of getTimeStamp, with what others do before it looks at the physical time again and,
        if it is refused, while it sleeps. */
    method Attempt(meanwhile: Meanwhile, ghost start: Oracle, ghost others: seq<Meanwhile>, ghost i: nat)
      returns (done: bool, ts: nat)
      requires i < |others| && others[i] == meanwhile && AllServing(others)
      requires View() == Exec(start, UntilAttempt(others, i)).oracle
      modifies this
      ensures done <==> Accepted(start, others, i)
      ensures done ==> ts == Timestamp(TicketOf(start, others, i)) && View() == Exec(start, UntilCheck(others, i)).oracle
      ensures !done ==> View() == Exec(start, UntilAttempt(others, i + 1)).oracle
    {
      OneMore(start, UntilAttempt(others, i), Take);
      var t := TakeTicket();
      Serve(meanwhile.beforeCheck, start, UntilAttempt(others, i) + [Take]);
      if physical != 0 && t.logical <= MAX_LOGICAL {
        return true, ComposeTS(t.physical, t.logical);
      }
      Serve(meanwhile.beforeRetry, start, UntilCheck(others, i));
      done, ts := false, 0;
    }

    /** getTimeStamp: the timestamp of the first accepted attempt, or 0 after a hundred that are refused. */
    method GetTimeStamp(others: seq<Meanwhile>) returns (ts: nat, ghost n: nat)
      requires |others| == MAX_RETRY && AllServing(others)
      modifies this
      ensures n <= MAX_RETRY && forall i :: 0 <= i < n ==> !Accepted(old(View()), others, i)
      ensures n < MAX_RETRY ==>
                && Accepted(old(View()), others, n) && ts == Timestamp(TicketOf(old(View()), others, n))
                && View() == Exec(old(View()), UntilCheck(others, n)).oracle
      ensures n == MAX_RETRY ==> ts == 0 && View() == Exec(old(View()), UntilAttempt(others, n)).oracle
    {
      hide Accepted, TicketOf, UntilCheck, UntilAttempt;
      assert UntilAttempt(others, 0) == [] by { NothingYet(others); }
      var i := 0;
      n := 0;
      while i < MAX_RETRY
        invariant i == n <= MAX_RETRY && View() == Exec(old(View()), UntilAttempt(others, n)).oracle
        invariant forall j :: 0 <= j < n ==> !Accepted(old(View()), others, j)
      {
        var done;
        done, ts := Attempt(others[i], old(View()), others, n);
        if done {
          return;
        }
        i, n := i + 1, n + 1;
      }
      ts := 0;
    }
  }
}
