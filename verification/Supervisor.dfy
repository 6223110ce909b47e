/**
  `run_case`: capture a worker's output while it lives, kill it past its deadline,
  reap it and drain the pipe, for every script of the calls it makes.
 */
module Supervisor {
  import opened Needle
  import opened Kernel
  import opened Capture
  import opened Deadline
  import Fnv

  /** A case of the table. */
  datatype Case = Case(wantEc: nat, needle: Bytes, hasNeedle: bool)

  datatype CaseResult = CaseResult(exitCode: nat, timedOut: bool, captureTimeout: bool, sawEof: bool, truncated: bool,
                                   workerReaped: bool, bytesSeen: nat, storeHash: bv32, needleFound: bool)

  // ---- The waiting loop ----

  /** A worker that never ends by itself and keeps its pipe open, and an environment without surprises. */
  ghost predicate Hung(w: Worker, clock: Clock)
    reads w, w.pipe, clock
  {
    && w.waits == [] && w.pipe.polls == [] && w.pipe.script == [] && clock.delays == []
  }

  /** A capture as `matrix_capture_init` leaves it. */
  predicate Unused(c: MatrixCapture)
    reads c
  {
    !c.sawEof && !c.captureTimeout
  }

  /** The last forty looks before the SIGKILL. */
  method LastChance(w: Worker, clock: Clock) returns (reap: Reap, ghost seen: seq<Event>)
    modifies w, clock
    ensures clock.log == old(clock.log) + seen && clock.now >= old(clock.now)
    ensures OnlyLooks(seen) && ReapedAs(seen, reap) && !reap.Lost?
    ensures if reap.Pending? then |seen| == LAST_LOOKS else |seen| <= LAST_LOOKS
    ensures old(Hung(w, clock)) ==> reap == Pending && Hung(w, clock)
  {
    hide Answers;
    reap, seen := Pending, [];
    var i := 0;
    while i < LAST_LOOKS
      invariant i == |seen| <= LAST_LOOKS && clock.now >= old(clock.now) && clock.log == old(clock.log) + seen
      invariant OnlyLooks(seen) && Statuses(seen) == []
      invariant old(Hung(w, clock)) ==> Hung(w, clock)
    {
      var a := w.Poll(clock);
      Logged(seen, Waited(a));
      assert (seen + [Waited(a)])[..|seen|] == seen;
      seen := seen + [Waited(a)];
      if a.Ended? {
        return Status(a.status), seen;
      }
      clock.Sleep(25);
      i := i + 1;
    }
  }

  /**
    The work of one pass: read what there is, then look at the worker. Not ok when `poll` failed. `pass` is the log
    of the case so far, `eofAt` and `now` are the loop's own variables.
   */
  method LookOnce(c: MatrixCapture, p: Pipe, w: Worker, clock: Clock,
                  ghost pass: seq<Event>, ghost eofAt: nat, ghost now: nat)
    returns (ok: bool, a: WaitAnswer, ghost seen: seq<Event>)
    requires c.Valid() && c.Follows(p) && w.pipe == p && !c.captureTimeout
    requires Waiting(pass, c.sawEof, eofAt, 1, now) && now <= clock.now
    modifies c, c.store, c.matcher, p`sent, p`script, p`polls, p`failures, w, clock
    ensures c.Valid() && c.Follows(p) && !c.captureTimeout && clock.now >= old(clock.now)
    ensures clock.log == old(clock.log) + seen && (old(c.sawEof) ==> clock.now > old(clock.now))
    ensures ok ==> Gone(pass + seen, c.sawEof, a) && p.failures >= old(p.failures)
    ensures ok && !a.Ended? ==> Waiting(pass + seen, c.sawEof, eofAt, 0, clock.now)
    ensures !ok ==> seen == [] && c.sawEof == old(c.sawEof) && p.failures > old(p.failures)
    ensures |w.waits| <= |old(w.waits)| && (ok && a == WaitIntr ==> |w.waits| < |old(w.waits)|)
    ensures old(Hung(w, clock)) && p.heldOpen ==> ok && a == Running && c.sawEof == old(c.sawEof) && Hung(w, clock)
  {
    hide MatrixCapture.Valid, Waiting, Gone;
    ghost var sawEof := c.sawEof;
    if c.sawEof {
      clock.Sleep(POLL_SLICE_MS);
    }
    var polled := p.Poll();
    if polled == PollBroken {
      return false, Running, [];
    }
    var read := c.ReadNb(p, clock);
    a := w.Poll(clock);
    ok := true;
    seen := if read == 0 then [EndOfFile(clock.now), Waited(a)] else [Waited(a)];
    PassLooks(pass, sawEof, eofAt, now, seen, a, read == 0, clock.now);
  }

  /** How an overdue worker ends: reaped at the last moment, or killed. */
  method GiveUp(w: Worker, clock: Clock, now: nat, ghost pass: seq<Event>) returns (reap: Reap, ghost es: seq<Event>)
    requires LateReading(pass, now) && clock.now >= now
    modifies w, w.pipe`heldOpen, clock
    ensures exists seen :: es == pass + seen && clock.log == old(clock.log) + seen
    ensures clock.now >= old(clock.now) && es != [] && es[0] == pass[0] && Eofs(es) == Eofs(pass)
    ensures ReapedAs(es, reap) && !reap.Lost?
    ensures if reap.Pending? then KilledAfter(es) else Kills(es) == [] && Overdue(es) && KillsLate(es)
    ensures old(Hung(w, clock)) ==> reap == Pending && Hung(w, clock) && !w.pipe.heldOpen
  {
    hide LateReading, KilledAfter, ReapedAs, OnlyLooks, Overdue, KillsLate, Kills, Eofs;
    ghost var seen;
    reap, seen := LastChance(w, clock);
    LastLooks(pass, now, seen, reap, clock.now);
    es := pass + seen;
    if reap == Pending {
      w.Kill(clock);
      seen := seen + [Killed(clock.now)];
      assert es + [Killed(clock.now)] == pass + seen;
      es := pass + seen;
    }
  }

  /** One pass of the waiting loop: over with a reaped or killed worker, failed, or to be repeated. */
  datatype Pass = Over(reap: Reap) | GaveOut | Repeat

  method OnePass(c: MatrixCapture, p: Pipe, w: Worker, clock: Clock, deadline: nat, eofAt: nat, ghost es: seq<Event>)
    returns (pass: Pass, noticed: nat, ghost seen: seq<Event>)
    requires c.Valid() && c.Follows(p) && w.pipe == p && !c.captureTimeout
    requires Waiting(es, c.sawEof, eofAt, 0, clock.now) && es != [] && es[0].Time?
    requires deadline == es[0].at + CASE_TIMEOUT_MS
    modifies c, c.store, c.matcher, p, w, clock
    ensures c.Valid() && c.Follows(p) && !c.captureTimeout
    ensures clock.log == old(clock.log) + seen && clock.now >= old(clock.now)
    ensures pass.Over? ==> Finished(es + seen, c.sawEof, pass.reap)
    ensures pass.GaveOut? ==> Failed(es + seen, c.sawEof, p.failures > old(p.failures))
    ensures p.failures >= old(p.failures)
    ensures pass.Repeat? ==>
              && Waiting(es + seen, c.sawEof, noticed, 0, clock.now) && (eofAt != 0 ==> noticed == eofAt)
              && old(clock.now) < Limit(deadline, noticed) && |w.waits| <= |old(w.waits)|
              && (clock.now > old(clock.now) || (|w.waits| < |old(w.waits)|))
    ensures old(Hung(w, clock)) && old(p.heldOpen) && !old(c.sawEof) ==>
              && !pass.GaveOut? && !c.sawEof && Hung(w, clock)
              && (if pass.Over? then pass.reap.Pending? && !p.heldOpen else p.heldOpen)
  {
    hide MatrixCapture.Valid, MatrixCapture.Follows, Waiting, LateReading, KilledAfter, Gone, LimitAfter, OnlyLooks,
         Answers, Statuses, Kills, Eofs, Start, Overdue, InTime, KillsLate, ReapedAs, Look, Failed;
    ghost var before := clock.now;
    var now := clock.Now();
    PassBegins(es, c.sawEof, eofAt, before, now);
    ghost var read := es + [Time(now)];
    noticed := Noticed(c.sawEof, eofAt, now);
    if now >= Limit(deadline, noticed) {
      ghost var all;
      var reap;
      reap, all := GiveUp(w, clock, now, read);
      seen :| all == read + seen && clock.log == (old(clock.log) + [Time(now)]) + seen;
      assert all == es + ([Time(now)] + seen);
      return Over(reap), noticed, [Time(now)] + seen;
    }
    var ok, a;
    ok, a, seen := LookOnce(c, p, w, clock, read, noticed, now);
    assert read + seen == es + ([Time(now)] + seen);
    seen := [Time(now)] + seen;
    if !ok {
      assert es + seen == read;
      WaitingFails(read, c.sawEof, noticed, now);
      return GaveOut, noticed, seen;
    }
    GoneIs(es + seen, c.sawEof, a, p.failures > old(p.failures));
    if a.Ended? {
      return Over(Status(a.status)), noticed, seen;
    }
    if a == NoChild {
      return Over(Lost), noticed, seen;
    }
    if a == WaitFail {
      return GaveOut, noticed, seen;
    }
    if a == Running {
      ghost var at := clock.now;
      clock.Sleep(POLL_SLICE_MS);
      WaitingLater(es + seen, c.sawEof, noticed, 0, at, clock.now);
    }
    pass := Repeat;
  }

  /**
    The waiting loop, up to the worker's exit, its kill, or a failure of the harness. It kills only after a reading
    of the clock at its limit or later and forty more looks at the worker, and not before the deadline or within the
    grace of an end of file.
   */
  method WaitForExit(c: MatrixCapture, p: Pipe, w: Worker, clock: Clock)
    returns (rc: int, reap: Reap, killed: bool, ghost es: seq<Event>)
    requires c.Valid() && c.Follows(p) && w.pipe == p && Unused(c)
    modifies c, c.store, c.matcher, p, w, clock
    ensures c.Valid() && c.Follows(p) && !c.captureTimeout
    ensures clock.log == old(clock.log) + es && clock.now >= old(clock.now)
    ensures es != [] && es[0].Time? && es[0].at >= old(clock.now)
    ensures (Eofs(es) != [] <==> c.sawEof) && p.failures >= old(p.failures)
    ensures rc == 0 || rc == -1
    ensures rc == 0 ==> killed == (reap == Pending) && ReapedAs(es, reap)
    ensures rc == 0 && killed ==> KilledAfter(es)
    ensures rc == 0 && !killed ==> Kills(es) == [] && (InTime(es) || Overdue(es)) && KillsLate(es)
    ensures rc == -1 ==> Kills(es) == [] && InTime(es) && (p.failures > old(p.failures) || WaitFail in Answers(es))
    ensures MovesOnce(Limits(es))
    ensures old(Hung(w, clock)) && old(p.heldOpen) ==> rc == 0 && killed && !c.sawEof && Hung(w, clock) && !p.heldOpen
  {
    hide MatrixCapture.Valid, MatrixCapture.Follows, Waiting, KilledAfter, MovesOnce,
         Answers, Statuses, Kills, Eofs, Overdue, InTime, KillsLate, ReapedAs;
    var start := clock.Now();
    var deadline := start + CASE_TIMEOUT_MS;
    var eofAt := 0;
    es := [Time(start)];
    WaitingStarts(start);
    while true
      invariant c.Valid() && c.Follows(p) && !c.captureTimeout && p.failures >= old(p.failures)
      invariant clock.log == old(clock.log) + es && Waiting(es, c.sawEof, eofAt, 0, clock.now)
      invariant es != [] && es[0] == Time(start) && clock.now >= start
      invariant old(Hung(w, clock)) && old(p.heldOpen) ==> Hung(w, clock) && p.heldOpen && !c.sawEof
      decreases eofAt == 0, Limit(deadline, eofAt) - clock.now, |w.waits|
    {
      var pass;
      ghost var seen, before := [], es;
      pass, eofAt, seen := OnePass(c, p, w, clock, deadline, eofAt, es);
      es := before + seen;
      LimitsMoveOnce(es);
      match pass {
        case Over(found) => return 0, found, found == Pending, es;
        case GaveOut => return -1, Pending, false, es;
        case Repeat =>
      }
    }
  }

  // ---- Reaping and draining ----

  /** What is logged once the loop is over: no kill, what was learned of the worker, and any end of file met. */
  predicate Rest(seen: seq<Event>, reap: Reap, met: bool) {
    Kills(seen) == [] && ReapedAs(seen, reap) && (Eofs(seen) != [] <==> met)
  }

  lemma RestStarts()
    ensures Rest([], Pending, false)
  {
  }

  lemma RestLogged(seen: seq<Event>, met: bool, e: Event)
    requires Rest(seen, Pending, met) && !e.Killed?
    ensures Rest(seen + [e], if e.Waited? && e.answer.Ended? then Status(e.answer.status) else Pending, met || e.EndOfFile?)
    ensures e == Waited(NoChild) ==> Rest(seen + [e], Lost, met)
    ensures e.Waited? ==> e.answer in Answers(seen + [e])
  {
    Logged(seen, e);
    hide Answers, Statuses, Kills, Eofs;
  }

  lemma RestJoined(a: seq<Event>, first: Reap, met: bool, b: seq<Event>, second: Reap, later: bool)
    requires Rest(a, first, met) && Rest(b, second, later) && (first.Pending? || second.Pending?)
    ensures Rest(a + b, if first.Pending? then second else first, met || later)
    ensures Answers(a + b) == Answers(a) + Answers(b)
  {
    LogConcat(a, b);
    hide Answers, Statuses, Kills, Eofs;
  }

  /** One turn of the wait for a killed worker. */
  method ReapOnce(c: MatrixCapture, p: Pipe, w: Worker, clock: Clock)
    returns (reap: Reap, ghost met: bool, ghost seen: seq<Event>)
    requires c.Valid() && c.Follows(p) && w.pipe == p && !c.captureTimeout
    modifies c, c.store, c.matcher, p`sent, p`script, p`failures, w, clock
    ensures c.Valid() && c.Follows(p) && !c.captureTimeout && c.sawEof == (old(c.sawEof) || met)
    ensures clock.log == old(clock.log) + seen && Rest(seen, reap, met) && p.failures >= old(p.failures)
    ensures clock.now >= old(clock.now) && (reap.Pending? ==> clock.now > old(clock.now))
    ensures old(Hung(w, clock)) ==> reap == Pending && Hung(w, clock)
  {
    hide MatrixCapture.Valid, MatrixCapture.Follows, Rest;
    RestStarts();
    reap, met := Pending, false;
    var a := w.Poll(clock);
    RestLogged([], met, Waited(a));
    seen := [] + [Waited(a)];
    if a.Ended? {
      return Status(a.status), met, seen;
    }
    if a == NoChild {
      return Lost, met, seen;
    }
    var read := c.ReadNb(p, clock);
    if read == 0 {
      RestLogged(seen, met, EndOfFile(clock.now));
      seen := seen + [EndOfFile(clock.now)];
      met := true;
    }
    clock.Sleep(POLL_SLICE_MS);
  }

  /** After the kill: look for the zombie while reading, for two seconds at most. */
  method ReapKilled(c: MatrixCapture, p: Pipe, w: Worker, clock: Clock)
    returns (reap: Reap, ghost met: bool, ghost seen: seq<Event>)
    requires c.Valid() && c.Follows(p) && w.pipe == p && !c.captureTimeout
    modifies c, c.store, c.matcher, p`sent, p`script, p`failures, w, clock
    ensures c.Valid() && c.Follows(p) && !c.captureTimeout && c.sawEof == (old(c.sawEof) || met)
    ensures clock.log == old(clock.log) + seen && Rest(seen, reap, met) && p.failures >= old(p.failures)
    ensures old(Hung(w, clock)) ==> reap == Pending && Hung(w, clock)
    ensures reap.Pending? ==>
              |seen| >= 2 && seen[0].Time? && seen[|seen| - 1].Time? && seen[|seen| - 1].at >= seen[0].at + 2000
  {
    hide MatrixCapture.Valid, MatrixCapture.Follows, Rest;
    RestStarts();
    var t := clock.Now();
    RestLogged([], false, Time(t));
    var deadline := t + DRAIN_TIMEOUT_MS;
    reap, met := Pending, false;
    ghost var first := t;
    t := clock.Now();
    RestLogged([] + [Time(first)], false, Time(t));
    seen := [] + [Time(first)] + [Time(t)];
    while t < deadline
      invariant c.Valid() && c.Follows(p) && !c.captureTimeout && reap == Pending && clock.now >= t
      invariant c.sawEof == (old(c.sawEof) || met) && p.failures >= old(p.failures)
      invariant clock.log == old(clock.log) + seen && Rest(seen, Pending, met)
      invariant |seen| >= 2 && seen[0] == Time(first) && seen[|seen| - 1] == Time(t)
      invariant old(Hung(w, clock)) ==> Hung(w, clock)
      decreases deadline - t
    {
      ghost var before, metBefore := seen, met;
      ghost var once;
      reap, met, once := ReapOnce(c, p, w, clock);
      RestJoined(before, Pending, metBefore, once, reap, met);
      met, seen := metBefore || met, before + once;
      if reap != Pending {
        return;
      }
      t := clock.Now();
      RestLogged(seen, met, Time(t));
      seen := seen + [Time(t)];
    }
  }

  lemma DrainIsRest(seen: seq<Event>, met: bool, c: MatrixCapture)
    requires c.DrainLog(seen, met)
    ensures Rest(seen, Pending, met)
  {
  }

  /** From the end of the waiting loop to a reaped worker and a drained pipe; -1 when the last wait failed. */
  method ReapAndDrain(c: MatrixCapture, p: Pipe, w: Worker, clock: Clock, early: Reap)
    returns (rc: int, reap: Reap, captureTimeout: bool, ghost met: bool, ghost seen: seq<Event>)
    requires c.Valid() && c.Follows(p) && w.pipe == p && !c.captureTimeout
    modifies c, c.store, c.matcher, p, w, clock
    ensures c.Valid() && c.Follows(p) && c.sawEof == (old(c.sawEof) || met)
    ensures clock.log == old(clock.log) + seen && Rest(seen, if early.Pending? then reap else Pending, met)
    ensures rc == 0 || rc == -1
    ensures !early.Pending? ==> reap == early && rc == 0
    ensures rc == 0 ==> reap != Pending && (captureTimeout <==> !c.sawEof)
    ensures rc == -1 ==> WaitFail in Answers(seen) || WaitIntr in Answers(seen)
    ensures old(Hung(w, clock)) && early.Pending? && !p.heldOpen ==> rc == 0 && c.sawEof && reap == Status(9)
    ensures p.heldOpen == old(p.heldOpen)
  {
    hide MatrixCapture.Valid, MatrixCapture.Follows, MatrixCapture.DrainLog, Rest, ReapedAs;
    reap, met, seen := early, false, [];
    RestStarts();
    if early.Pending? {
      reap, met, seen := ReapKilled(c, p, w, clock);
    }
    ghost var heard := if early.Pending? then reap else Pending;
    assert Rest(seen, heard, met);
    assert old(Hung(w, clock)) ==> Hung(w, clock) && c.Quiet(p, clock);
    ghost var before := c.sawEof;
    var drained;
    ghost var drain;
    drained, drain := c.DrainToEof(p, clock, DRAIN_TIMEOUT_MS);
    captureTimeout := drained != 0 && c.captureTimeout;
    DrainIsRest(drain, c.sawEof && !before, c);
    RestJoined(seen, heard, met, drain, Pending, c.sawEof && !before);
    seen := seen + drain;
    met := met || (c.sawEof && !before);
    rc := 0;
    if reap == Pending {
      var a := w.Wait(clock);
      RestLogged(seen, met, Waited(a));
      seen := seen + [Waited(a)];
      if a.Ended? {
        reap := Status(a.status);
      } else if a == NoChild {
        reap := Lost;
      } else {
        rc := -1;
      }
    }
  }

  // ---- The result of a case ----

  predicate NormalExit(status: nat) {
    status % 128 == 0
  }

  function ExitCode(status: nat): nat {
    if NormalExit(status) then (status / 256) % 256 else 128 + status % 128
  }

  /** The exit code reported, and whether it stands for a timeout. */
  function Reported(k: Case, killed: bool, reap: Reap, sawEof: bool, found: bool): (nat, bool) {
    if killed && reap.Status? && NormalExit(reap.status) then (ExitCode(reap.status), false)
    else if killed && sawEof && k.wantEc == 0 && (!k.hasNeedle || found) then (0, false)
    else if killed then (124, true)
    else if !reap.Status? then (125, false)
    else (ExitCode(reap.status), false)
  }

  /**
    What holds of every case the harness carried through, in terms of the calls it made: at most one kill, not
    before its time, and a result that says what `waitpid` and `read` answered.
   */
  ghost predicate CaseDone(k: Case, output: Bytes, fed: Bytes, kept: Bytes, es: seq<Event>, reap: Reap, res: CaseResult) {
    && |Kills(es)| <= 1 && KillsLate(es)
    && reap != Pending && ReapedAs(es, reap) && res.workerReaped
    && (res.sawEof <==> Eofs(es) != []) && (res.sawEof ==> fed == output)
    && (res.captureTimeout <==> !res.sawEof)
    && res.needleFound == Seen(Capped(k.needle), fed).found && res.bytesSeen == |fed| % 0x1_0000_0000_0000_0000
    && (res.exitCode, res.timedOut) == Reported(k, Kills(es) != [], reap, res.sawEof, res.needleFound)
    && res.storeHash == Fnv.Hash(Fnv.BASIS, kept)
  }

  /** The bytes of the store. */
  ghost function StoreBytes(c: MatrixCapture): Bytes
    reads c, c.store
  {
    if c.store == null || c.storeLen > c.store.Length then [] else c.store[..c.storeLen]
  }

  /** The log of a whole case: the waiting loop, then the rest. */
  lemma CaseLog(es: seq<Event>, killed: bool, early: Reap, seen: seq<Event>, reap: Reap, met: bool)
    requires killed == early.Pending? && ReapedAs(es, early) && Rest(seen, if killed then reap else Pending, met)
    requires if killed then KilledAfter(es) else es != [] && Kills(es) == [] && KillsLate(es) && reap == early
    ensures var all := es + seen;
            && |Kills(all)| == (if killed then 1 else 0) && KillsLate(all) && ReapedAs(all, reap)
            && (Eofs(all) != [] <==> Eofs(es) != [] || met)
            && (killed ==> (EofBeforeKill(all) <==> Eofs(es) != []))
  {
    hide Answers, Statuses, Kills, Eofs, EofBeforeKill, KillsLate, KilledAfter;
    LogConcat(es, seen);
    if killed {
      KilledIs(es);
    }
    KillsLateKept(es, seen);
  }

  lemma KilledIs(es: seq<Event>)
    requires KilledAfter(es)
    ensures es != [] && es[0].Time? && |Kills(es)| == 1 && KillsLate(es) && (EofBeforeKill(es) <==> Eofs(es) != [])
  {
    var before := es[..|es| - 1];
    EofWithoutKill(before);
    hide Overdue, Limits, KillsLate;
  }

  /** What the log says of a reaped worker. */
  predicate LogFits(es: seq<Event>, killed: bool, reap: Reap, sawEof: bool) {
    && |Kills(es)| == (if killed then 1 else 0) && KillsLate(es) && reap != Pending && ReapedAs(es, reap)
    && (Eofs(es) != [] <==> sawEof)
  }

  /** The last part of `run_case`: the result out of the capture and the wait status. */
  method Report(k: Case, c: MatrixCapture, p: Pipe, killed: bool, reap: Reap, late: bool, ghost es: seq<Event>)
    returns (res: CaseResult)
    requires c.Valid() && c.Follows(p) && c.store != null && c.matcher.needle == Capped(k.needle)
    requires LogFits(es, killed, reap, c.sawEof) && (late <==> !c.sawEof)
    ensures CaseDone(k, p.output, c.fed, StoreBytes(c), es, reap, res)
    ensures res.truncated == c.truncated && res.sawEof == c.sawEof
  {
    hide MatrixCapture.Valid, MatrixCapture.Follows, Reported, ReapedAs, Kills, Eofs, KillsLate;
    StoreFits(c);
    FedWhenDone(c, p);
    var hash := c.StoreHash();
    var found := c.NeedleFound();
    var (exitCode, timedOut) := Reported(k, killed, reap, c.sawEof, found);
    res := CaseResult(exitCode, timedOut, late, c.sawEof, c.truncated, reap != Pending, c.bytesSeen, hash, found);
  }

  /** `run_case` from the fork on: 0 with a finished result, -1 when a call of the harness itself failed. */
  method RunCase(k: Case, c: MatrixCapture, p: Pipe, w: Worker, clock: Clock)
    returns (rc: int, res: CaseResult, ghost es: seq<Event>, ghost reap: Reap)
    requires c.Valid() && c.Follows(p) && w.pipe == p && Unused(c) && c.store != null
    requires c.matcher.needle == Capped(k.needle)
    modifies c, c.store, c.matcher, p, w, clock
    ensures rc == 0 || rc == -1
    ensures c.Valid() && c.storeLen <= c.store.Length && clock.log == old(clock.log) + es
    ensures rc == 0 ==> CaseDone(k, p.output, c.fed, StoreBytes(c), es, reap, res) && res.truncated == c.truncated
    ensures rc == -1 ==> p.failures > old(p.failures) || WaitFail in Answers(es) || WaitIntr in Answers(es)
    ensures old(Hung(w, clock)) && old(p.heldOpen) ==>
              rc == 0 && Kills(es) != [] && !EofBeforeKill(es) && res.sawEof && reap == Status(9)
  {
    hide MatrixCapture.Valid, MatrixCapture.Follows, Reported, ReapedAs, KilledAfter, Rest, Kills, Eofs, KillsLate, Answers,
         InTime, Overdue, CaseDone, StoreBytes, EofBeforeKill, Capped, Statuses, Limits, MovesOnce, Start;
    var r, early, killed;
    ghost var waiting;
    r, early, killed, waiting := WaitForExit(c, p, w, clock);
    reap, es := early, waiting;
    res := CaseResult(0, false, false, false, false, false, 0, 0, false);
    StoreFits(c);
    if r != 0 {
      return -1, res, es, reap;
    }
    var now, late;
    ghost var seen, met;
    r, now, late, met, seen := ReapAndDrain(c, p, w, clock, early);
    reap := now;
    LogConcat(waiting, seen);
    es := waiting + seen;
    assert old(clock.log) + waiting + seen == old(clock.log) + es;
    StoreFits(c);
    if r != 0 {
      return -1, res, es, reap;
    }
    CaseLog(waiting, killed, early, seen, now, met);
    res := Report(k, c, p, killed, now, late, es);
    return 0, res, es, reap;
  }

  lemma StoreFits(c: MatrixCapture)
    requires c.Valid() && c.store != null
    ensures c.storeLen <= c.store.Length && (c.Stores() ==> StoreBytes(c) == Kept(c.fed, c.store.Length))
    ensures c.bytesSeen == |c.fed| % TWO64
  {
  }

  lemma FedWhenDone(c: MatrixCapture, p: Pipe)
    requires c.Follows(p)
    ensures c.sawEof ==> c.fed == p.output
  {
  }
}
